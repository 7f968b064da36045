/** The typed broadcaster (broadcast/typed_broadcast.go): client goroutines calling Notify,
    AddListener and Stop under one read-write lock, each instance of `insts` running the chain of
    `BroadcastChain` concurrently.  Argument types are numbered. */
module BroadcastTyped {
  import opened C = BroadcastChain

  /** Where a client goroutine stands.  Every constructor but Idle holds the lock: for reading in
      the Notify ones, for writing in the others. */
  datatype ClientPc =
    | Idle
    | NotifyLocked(t: nat, v: Payload)
    | NotifySending(t: nat, v: Payload) // blocked in Sendc <-
    | NotifyReturning
    | AddLocked(t: nat)
    | AddSubmitting(t: nat) // blocked in listenc <- c
    | AddAwaiting(t: nat) // blocked in rc := <-c
    | AddReturning
    | StopLocked // closing the instances and waiting for their stubs

  /** `retired` keeps the instances that a Stop dropped from the map. */
  datatype TState = TState(clients: seq<ClientPc>, insts: map<nat, State>, retired: set<State>)

  datatype TAction =
    | BeginNotify(c: nat, t: nat, v: Payload)
    | Lookup(c: nat)
    | Send(c: nat)
    | EndNotify(c: nat)
    | BeginAdd(c: nat, t: nat)
    | FindOrCreate(c: nat)
    | Submit(c: nat)
    | Receipt(c: nat)
    | EndAdd(c: nat)
    | BeginStop(c: nat)
    | CloseInstance(c: nat, t: nat)
    | EndStop(c: nat)
    | Step(t: nat, a: Action) // a goroutine of instance t moves

  predicate HoldsRead(p: ClientPc) {
    p.NotifyLocked? || p.NotifySending? || p.NotifyReturning?
  }

  predicate HoldsWrite(p: ClientPc) {
    p.AddLocked? || p.AddSubmitting? || p.AddAwaiting? || p.AddReturning? || p.StopLocked?
  }

  predicate NoWriter(s: TState) {
    forall c: nat | c < |s.clients| :: !HoldsWrite(s.clients[c])
  }

  predicate LockFree(s: TState) {
    forall c: nat | c < |s.clients| :: s.clients[c].Idle?
  }

  /** The goroutine steps that involve no client: AddListener's two rendezvous and Send's are
      client actions. */
  predicate OwnStep(a: Action) {
    Internal(a) && !a.Reply?
  }

  predicate TEnabled(s: TState, a: TAction) {
    match a
    case BeginNotify(c, _, _) => c < |s.clients| && s.clients[c].Idle? && NoWriter(s)
    case Lookup(c) => c < |s.clients| && s.clients[c].NotifyLocked?
    case Send(c) =>
      && c < |s.clients| && s.clients[c].NotifySending? && s.clients[c].t in s.insts
      && Enabled(s.insts[s.clients[c].t], Receive(s.clients[c].v))
    case EndNotify(c) => c < |s.clients| && s.clients[c].NotifyReturning?
    case BeginAdd(c, _) => c < |s.clients| && LockFree(s)
    case FindOrCreate(c) => c < |s.clients| && s.clients[c].AddLocked?
    case Submit(c) =>
      && c < |s.clients| && s.clients[c].AddSubmitting? && s.clients[c].t in s.insts
      && Enabled(s.insts[s.clients[c].t], AcceptListener)
    case Receipt(c) =>
      && c < |s.clients| && s.clients[c].AddAwaiting? && s.clients[c].t in s.insts
      && Enabled(s.insts[s.clients[c].t], Reply)
    case EndAdd(c) => c < |s.clients| && s.clients[c].AddReturning?
    case BeginStop(c) => c < |s.clients| && LockFree(s)
    case CloseInstance(c, t) =>
      && c < |s.clients| && s.clients[c].StopLocked? && t in s.insts && Enabled(s.insts[t], Close)
    case EndStop(c) =>
      && c < |s.clients| && s.clients[c].StopLocked?
      && forall t | t in s.insts :: s.insts[t].closed && AllStopped(s.insts[t])
    case Step(t, b) => t in s.insts && OwnStep(b) && Enabled(s.insts[t], b)
  }

  function At(s: TState, c: nat, p: ClientPc): TState
    requires c < |s.clients|
  {
    s.(clients := s.clients[c := p])
  }

  function On(s: TState, t: nat, a: Action): TState
    requires t in s.insts && Enabled(s.insts[t], a)
  {
    s.(insts := s.insts[t := C.Apply(s.insts[t], a)])
  }

  function TApply(s: TState, a: TAction): TState
    requires TEnabled(s, a)
  {
    match a
    case BeginNotify(c, t, v) => At(s, c, NotifyLocked(t, v))
    case Lookup(c) =>
      var p := s.clients[c];
      At(s, c, if p.t in s.insts then NotifySending(p.t, p.v) else NotifyReturning)
    case Send(c) => At(On(s, s.clients[c].t, Receive(s.clients[c].v)), c, NotifyReturning)
    case EndNotify(c) => At(s, c, Idle)
    case BeginAdd(c, t) => At(s, c, AddLocked(t))
    case FindOrCreate(c) =>
      var t := s.clients[c].t;
      var m := if t in s.insts then s.insts else s.insts[t := C.INIT];
      At(s.(insts := m), c, AddSubmitting(t))
    case Submit(c) => At(On(s, s.clients[c].t, AcceptListener), c, AddAwaiting(s.clients[c].t))
    case Receipt(c) => At(On(s, s.clients[c].t, Reply), c, AddReturning)
    case EndAdd(c) => At(s, c, Idle)
    case BeginStop(c) => At(s, c, StopLocked)
    case CloseInstance(c, t) => On(s, t, Close)
    case EndStop(c) =>
      At(s.(retired := s.retired + s.insts.Values, insts := map[]), c, Idle)
    case Step(t, b) => On(s, t, b)
  }

  // ----- The lock discipline -----------------------------------------------------------------

  /** A writer excludes every other client. */
  ghost predicate LockOk(s: TState) {
    forall c: nat, d: nat | c < |s.clients| && d < |s.clients| && c != d && HoldsWrite(s.clients[c]) ::
      s.clients[d].Idle?
  }

  ghost predicate ClientOk(s: TState, p: ClientPc) {
    && (p.NotifySending? || p.AddSubmitting? ==>
          p.t in s.insts && !s.insts[p.t].closed)
    && (p.AddAwaiting? ==> p.t in s.insts && !s.insts[p.t].closed && s.insts[p.t].notifier.Replying?)
  }

  ghost predicate ClientsOk(s: TState) {
    forall c: nat | c < |s.clients| :: ClientOk(s, s.clients[c])
  }

  ghost predicate Stopping(s: TState) {
    exists c: nat :: c < |s.clients| && s.clients[c].StopLocked?
  }

  ghost predicate Adding(s: TState, t: nat) {
    exists c: nat :: c < |s.clients| && (s.clients[c] == AddSubmitting(t) || s.clients[c] == AddAwaiting(t))
  }

  ghost predicate Awaiting(s: TState, t: nat) {
    exists c: nat :: c < |s.clients| && s.clients[c] == AddAwaiting(t)
  }

  ghost predicate InstanceOk(s: TState, t: nat)
    requires t in s.insts
  {
    && Inv(s.insts[t])
    && (s.insts[t].closed ==> Stopping(s))
    && (s.insts[t].listeners == [] ==> Adding(s, t))
    && (s.insts[t].notifier.Replying? ==> Awaiting(s, t))
  }

  /** A retired instance: its goroutines have all returned and every listener has handled every
      message from its registration on. */
  ghost predicate RetiredOk(s: State) {
    Inv(s) && s.notifier.Exited? && AllStopped(s) && Drained(s)
  }

  ghost predicate TInv(s: TState) {
    && LockOk(s)
    && ClientsOk(s)
    && (forall t | t in s.insts :: InstanceOk(s, t))
    && (forall r | r in s.retired :: RetiredOk(r))
  }

  ghost predicate TInit(s: TState) {
    s.insts == map[] && s.retired == {} && LockFree(s)
  }

  /** What a change of one client's position needs, the instances being the same. */
  lemma ClientMoveInv(s: TState, c: nat, p: ClientPc)
    requires TInv(s) && c < |s.clients|
    requires ClientOk(s, p)
    requires HoldsWrite(p) ==> HoldsWrite(s.clients[c]) || LockFree(s)
    requires HoldsRead(p) ==> HoldsRead(s.clients[c]) || NoWriter(s)
    requires s.clients[c].StopLocked? ==> p.StopLocked?
    requires s.clients[c].AddSubmitting? || s.clients[c].AddAwaiting? ==> p == s.clients[c]
    ensures TInv(At(s, c, p))
  {
    var s' := At(s, c, p);
    forall t | t in s.insts ensures InstanceOk(s', t) {
      assert InstanceOk(s, t);
      if s.insts[t].closed {
        var d: nat :| d < |s.clients| && s.clients[d].StopLocked?;
        assert s'.clients[d].StopLocked?;
      }
      if s.insts[t].listeners == [] {
        var d: nat :| d < |s.clients| && (s.clients[d] == AddSubmitting(t) || s.clients[d] == AddAwaiting(t));
        assert s'.clients[d] == s.clients[d];
      }
      if s.insts[t].notifier.Replying? {
        var d: nat :| d < |s.clients| && s.clients[d] == AddAwaiting(t);
        assert s'.clients[d] == s.clients[d];
      }
    }
  }

  /** Moves of an instance that leave its clients' expectations alone. */
  lemma InstanceMoveInv(s: TState, t: nat, a: Action)
    requires TInv(s) && t in s.insts && Enabled(s.insts[t], a)
    requires OwnStep(a) || a.Receive? || (a.Close? && Stopping(s))
    ensures TInv(On(s, t, a))
  {
    var s' := On(s, t, a);
    assert InstanceOk(s, t);
    StepInv(s.insts[t], a);
    assert s'.clients == s.clients;
    assert Stopping(s) ==> Stopping(s');
    forall u | u in s'.insts ensures InstanceOk(s', u) {
      assert InstanceOk(s, u);
      assert Adding(s, u) ==> Adding(s', u);
      assert Awaiting(s, u) ==> Awaiting(s', u);
    }
    forall c: nat | c < |s'.clients| ensures ClientOk(s', s'.clients[c]) {
      assert ClientOk(s, s.clients[c]);
      if a.Close? {
        var d: nat :| d < |s.clients| && s.clients[d].StopLocked?;
        assert HoldsWrite(s.clients[d]);
      }
    }
  }

  /** AddListener's steps on the instance: it creates it, submits its channel, gets its reply. */
  lemma AddStepInv(s: TState, a: TAction)
    requires TInv(s) && TEnabled(s, a) && (a.FindOrCreate? || a.Submit? || a.Receipt?)
    ensures TInv(TApply(s, a))
  {
    var s' := TApply(s, a);
    var c := a.c;
    var t := s.clients[c].t;
    assert HoldsWrite(s.clients[c]);
    assert forall d: nat | d < |s.clients| && d != c :: s'.clients[d].Idle?;
    assert !Stopping(s);
    C.InitInv();
    assert ClientOk(s, s.clients[c]);
    if !a.FindOrCreate? {
      assert InstanceOk(s, t);
      StepInv(s.insts[t], if a.Submit? then AcceptListener else Reply);
    }
    forall u | u in s'.insts ensures InstanceOk(s', u) {
      if u in s.insts {
        assert InstanceOk(s, u);
      }
      if u == t {
        assert s'.clients[c] == AddSubmitting(t) ==> Adding(s', t);
        assert s'.clients[c] == AddAwaiting(t) ==> Adding(s', t) && Awaiting(s', t);
      }
    }
  }

  lemma EndStopInv(s: TState, c: nat)
    requires TInv(s) && TEnabled(s, EndStop(c))
    ensures TInv(TApply(s, EndStop(c)))
    ensures forall t | t in s.insts :: RetiredOk(s.insts[t])
  {
    assert HoldsWrite(s.clients[c]);
    forall t | t in s.insts ensures RetiredOk(s.insts[t]) {
      var i := s.insts[t];
      assert InstanceOk(s, t);
      assert !Adding(s, t);
      assert ListenerOk(i, i.listeners[0]);
      StoppedIsDrained(i);
    }
  }

  /** The invariant of the whole broadcaster is inductive. */
  lemma TStepInv(s: TState, a: TAction)
    requires TInv(s) && TEnabled(s, a)
    ensures TInv(TApply(s, a))
  {
    match a
    case BeginNotify(c, t, v) => ClientMoveInv(s, c, NotifyLocked(t, v));
    case Lookup(c) =>
      var p := s.clients[c];
      if p.t in s.insts {
        assert InstanceOk(s, p.t);
        assert HoldsRead(p);
        assert !Stopping(s);
        ClientMoveInv(s, c, NotifySending(p.t, p.v));
      } else {
        ClientMoveInv(s, c, NotifyReturning);
      }
    case Send(c) =>
      InstanceMoveInv(s, s.clients[c].t, Receive(s.clients[c].v));
      ClientMoveInv(On(s, s.clients[c].t, Receive(s.clients[c].v)), c, NotifyReturning);
    case EndNotify(c) => ClientMoveInv(s, c, Idle);
    case BeginAdd(c, t) => ClientMoveInv(s, c, AddLocked(t));
    case FindOrCreate(_) => AddStepInv(s, a);
    case Submit(_) => AddStepInv(s, a);
    case Receipt(_) => AddStepInv(s, a);
    case EndAdd(c) => ClientMoveInv(s, c, Idle);
    case BeginStop(c) => ClientMoveInv(s, c, StopLocked);
    case CloseInstance(c, t) => InstanceMoveInv(s, t, Close);
    case EndStop(c) => EndStopInv(s, c);
    case Step(t, b) => InstanceMoveInv(s, t, b);
  }

  lemma TInitInv(s: TState)
    requires TInit(s)
    ensures TInv(s)
  {
  }

  /** The lock keeps Send and AddListener away from a closing instance: no client ever sends on a
      closed channel (which would panic), and no rendezvous waits for a notifier that is closing. */
  lemma NoSendAfterClose(s: TState, c: nat)
    requires TInv(s) && c < |s.clients|
    ensures
      var p := s.clients[c];
      p.NotifySending? || p.AddSubmitting? || p.AddAwaiting? ==>
        p.t in s.insts && !s.insts[p.t].closed
        && !s.insts[p.t].notifier.Terminating? && !s.insts[p.t].notifier.Exited?
  {
    var p := s.clients[c];
    assert ClientOk(s, p);
    if p.NotifySending? || p.AddSubmitting? || p.AddAwaiting? {
      assert InstanceOk(s, p.t);
    }
  }

  /** A Send or an AddListener that is under way is never stuck: its rendezvous is enabled, or
      the notifier can publish first and then becomes ready for it. */
  lemma RendezvousServed(s: TState, c: nat)
    requires TInv(s) && c < |s.clients|
    requires s.clients[c].NotifySending? || s.clients[c].AddSubmitting? || s.clients[c].AddAwaiting?
    ensures
      var t := s.clients[c].t;
      || TEnabled(s, Send(c)) || TEnabled(s, Submit(c)) || TEnabled(s, Receipt(c))
      || (TEnabled(s, Step(t, Publish)) &&
          var s' := TApply(s, Step(t, Publish));
          TEnabled(s', Send(c)) || TEnabled(s', Submit(c)))
  {
    NoSendAfterClose(s, c);
    var p := s.clients[c];
    assert ClientOk(s, p);
    var i := s.insts[p.t];
    assert InstanceOk(s, p.t);
    SendsNeverBlock(i);
    assert i.notifier.Replying? ==> exists d: nat ::
      d < |s.clients| && s.clients[d] == AddAwaiting(p.t) && HoldsWrite(s.clients[d]);
  }

  ghost predicate IsTRun(run: seq<TState>, acts: seq<TAction>) {
    && |run| == |acts| + 1
    && TInit(run[0])
    && forall j: nat | j < |acts| :: TEnabled(run[j], acts[j]) && run[j + 1] == TApply(run[j], acts[j])
  }

  lemma {:induction false} TRunInv(run: seq<TState>, acts: seq<TAction>, j: nat)
    requires IsTRun(run, acts) && j < |run|
    ensures TInv(run[j])
  {
    if j == 0 {
      TInitInv(run[0]);
    } else {
      TRunInv(run, acts, j - 1);
      TStepInv(run[j - 1], acts[j - 1]);
    }
  }

  /** Every instance of a reachable broadcaster is the end of a run of its own chain, so what holds of
      the chain holds of it; it receives only payloads of Notify calls of its type. */
  lemma {:induction false} InstanceRun(run: seq<TState>, acts: seq<TAction>, j: nat, t: nat)
    returns (r: seq<State>, b: seq<Action>)
    requires IsTRun(run, acts) && j < |run| && t in run[j].insts
    ensures IsRun(r, b) && r[|b|] == run[j].insts[t]
    ensures forall v | Receive(v) in b ::
      exists i: nat :: i < j && acts[i].Send? && acts[i].c < |run[i].clients|
                       && run[i].clients[acts[i].c] == NotifySending(t, v)
  {
    var s, a := run[j - 1], acts[j - 1];
    assert run[j] == TApply(s, a);
    if t !in s.insts {
      return [C.INIT], [];
    }
    r, b := InstanceRun(run, acts, j - 1, t);
    if run[j].insts[t] == s.insts[t] {
      return;
    }
    var step := match a
      case Send(c) => Receive(s.clients[c].v)
      case Submit(_) => AcceptListener
      case Receipt(_) => Reply
      case CloseInstance(_, _) => Close
      case Step(_, x) => x
      case _ => Close;
    assert Enabled(s.insts[t], step) && run[j].insts[t] == C.Apply(s.insts[t], step);
    assert step.Receive? ==> a.Send? && s.clients[a.c] == NotifySending(t, step.v);
    r, b := r + [run[j].insts[t]], b + [step];
  }

  // ----- End to end --------------------------------------------------------------------------

  /** What a Notify call for type `t` sends in one step. */
  function SentBy(s: TState, a: TAction, t: nat): seq<Payload> {
    if a.Send? && a.c < |s.clients| && s.clients[a.c].NotifySending? && s.clients[a.c].t == t
    then [s.clients[a.c].v]
    else []
  }

  /** The payloads of the Notify calls for type `t` whose Send went through since the last Stop, in the
      order of their rendezvous. */
  function SentTo(run: seq<TState>, acts: seq<TAction>, j: nat, t: nat): seq<Payload>
    requires j <= |acts| <= |run|
  {
    if j == 0 || acts[j - 1].EndStop? then []
    else SentTo(run, acts, j - 1, t) + SentBy(run[j - 1], acts[j - 1], t)
  }

  /** An instance was sent exactly those payloads. */
  lemma {:induction false} SentExactly(run: seq<TState>, acts: seq<TAction>, j: nat, t: nat)
    requires IsTRun(run, acts) && j < |run|
    ensures if t in run[j].insts then run[j].insts[t].sent == SentTo(run, acts, j, t)
            else SentTo(run, acts, j, t) == []
  {
    if j > 0 {
      SentExactly(run, acts, j - 1, t);
      assert run[j] == TApply(run[j - 1], acts[j - 1]);
    }
  }

  /** Between two Stops an instance stays, and what it was sent and when its listeners registered are
      kept. */
  lemma {:induction false} InstanceGrows(run: seq<TState>, acts: seq<TAction>, j: nat, m: nat, t: nat)
    requires IsTRun(run, acts) && j <= m < |run| && t in run[j].insts
    requires forall i: nat | j <= i < m :: !acts[i].EndStop?
    ensures t in run[m].insts && run[j].insts[t].sent <= run[m].insts[t].sent
    ensures |run[j].insts[t].listeners| <= |run[m].insts[t].listeners|
    ensures forall i: nat | i < |run[j].insts[t].listeners| ::
      run[m].insts[t].listeners[i].start == run[j].insts[t].listeners[i].start
    decreases m
  {
    if j < m {
      InstanceGrows(run, acts, j, m - 1, t);
      var a := acts[m - 1];
      assert run[m] == TApply(run[m - 1], a);
      InstanceStep(run[m - 1], a, t);
    }
  }

  lemma InstanceStep(s: TState, a: TAction, t: nat)
    requires TEnabled(s, a) && t in s.insts && !a.EndStop?
    ensures
      var i, i' := s.insts[t], if t in TApply(s, a).insts then TApply(s, a).insts[t] else C.INIT;
      && t in TApply(s, a).insts
      && i.sent <= i'.sent && |i.listeners| <= |i'.listeners|
      && forall k: nat | k < |i.listeners| :: i'.listeners[k].start == i.listeners[k].start
  {
  }

  /** What an AddListener's last rendezvous registers. */
  lemma Registered(s: TState, a: TAction, t: nat)
    requires TEnabled(s, a) && a.Receipt? && s.clients[a.c].t == t
    ensures t in s.insts && t in TApply(s, a).insts
    ensures
      var i, i' := s.insts[t], TApply(s, a).insts[t];
      && i'.sent == i.sent && |i'.listeners| == |i.listeners| + 1
      && i'.listeners[|i.listeners|].start == |i.sent|
  {
  }

  lemma RegisteredLater(run: seq<TState>, acts: seq<TAction>, j: nat, m: nat, t: nat)
    requires IsTRun(run, acts) && j < m < |run| && acts[j].Receipt? && run[j].clients[acts[j].c].t == t
    requires forall i: nat | j <= i < m :: !acts[i].EndStop?
    ensures t in run[j].insts && t in run[m].insts
    ensures run[j].insts[t].sent <= run[m].insts[t].sent
    ensures |run[j].insts[t].listeners| < |run[m].insts[t].listeners|
    ensures run[m].insts[t].listeners[|run[j].insts[t].listeners|].start == |run[j].insts[t].sent|
  {
    Registered(run[j], acts[j], t);
    InstanceGrows(run, acts, j + 1, m, t);
  }

  lemma StoppedAtEnd(s: TState, a: TAction, t: nat)
    requires TEnabled(s, a) && a.EndStop? && t in s.insts
    ensures AllStopped(s.insts[t])
  {
  }

  /** End to end.  The listener that an AddListener for type `t` registered at step `j` has handled, at
      every later state before the next Stop returns, the first so many payloads that Notify calls of
      that type sent after it: no gaps, no repeats, in the order sent.  Once it has returned, and so when
      that Stop is about to return, it has handled all of them. */
  lemma EndToEnd(run: seq<TState>, acts: seq<TAction>, j: nat, m: nat, t: nat)
    requires IsTRun(run, acts) && j < m < |run| && acts[j].Receipt? && run[j].clients[acts[j].c].t == t
    requires forall i: nat | j <= i < m :: !acts[i].EndStop?
    ensures t in run[j].insts && t in run[m].insts
    ensures |run[j].insts[t].listeners| < |run[m].insts[t].listeners|
    ensures SentTo(run, acts, j, t) <= SentTo(run, acts, m, t)
    ensures
      var l := run[m].insts[t].listeners[|run[j].insts[t].listeners|];
      var later := SentTo(run, acts, m, t)[|SentTo(run, acts, j, t)|..];
      l.handled <= later && (l.pc.Stopped? || (m < |acts| && acts[m].EndStop?) ==> l.handled == later)
  {
    var k := |run[j].insts[t].listeners|;
    RegisteredLater(run, acts, j, m, t);
    SentExactly(run, acts, j, t);
    SentExactly(run, acts, m, t);
    TRunInv(run, acts, m);
    assert InstanceOk(run[m], t);
    HandledSoFar(run[m].insts[t], k);
    if m < |acts| && acts[m].EndStop? {
      StoppedAtEnd(run[m], acts[m], t);
    }
  }

  /** When Stop returns, every instance it dropped is at rest: all of its goroutines have
      returned, and each listener's callback has run on every payload sent since it registered.
      The map is empty, so a later Notify sends nothing. */
  lemma StopDrainsEverything(run: seq<TState>, acts: seq<TAction>, j: nat)
    requires IsTRun(run, acts) && j < |acts| && acts[j].EndStop?
    ensures forall t | t in run[j].insts :: RetiredOk(run[j].insts[t])
    ensures run[j + 1].insts == map[]
    ensures forall r | r in run[j + 1].retired :: RetiredOk(r)
  {
    TRunInv(run, acts, j);
    EndStopInv(run[j], acts[j].c);
    TRunInv(run, acts, j + 1);
  }

  // ----- Stop terminates ---------------------------------------------------------------------

  /** Work left in one instance, one unit of it being its close. */
  function StopWork(s: State): nat {
    Work(s) + (if s.closed then 0 else 1)
  }

  ghost function TotalWork(m: map<nat, State>): nat
    decreases m.Keys
  {
    if m == map[] then 0
    else
      var t :| t in m;
      StopWork(m[t]) + TotalWork(m - {t})
  }

  /** The choice of key in TotalWork does not matter. */
  lemma {:induction false} TotalWorkOf(m: map<nat, State>, t: nat)
    requires t in m
    ensures TotalWork(m) == StopWork(m[t]) + TotalWork(m - {t})
    decreases m.Keys
  {
    var u :| u in m && TotalWork(m) == StopWork(m[u]) + TotalWork(m - {u});
    if u != t {
      TotalWorkOf(m - {u}, t);
      TotalWorkOf(m - {t}, u);
      assert (m - {u}) - {t} == (m - {t}) - {u};
    }
  }

  lemma TotalWorkUpdate(m: map<nat, State>, t: nat, s: State)
    requires t in m
    ensures TotalWork(m[t := s]) == TotalWork(m) - StopWork(m[t]) + StopWork(s)
  {
    TotalWorkOf(m, t);
    TotalWorkOf(m[t := s], t);
    assert m[t := s] - {t} == m - {t};
  }

  /** While a client is in Stop, the lock leaves only goroutine steps, closes and the end of that
      Stop: each step but the last uses up work. */
  lemma StopStepDecreases(s: TState, a: TAction)
    requires TInv(s) && Stopping(s) && TEnabled(s, a)
    ensures a.Step? || a.CloseInstance? || a.EndStop?
    ensures !a.EndStop? ==> Stopping(TApply(s, a)) && TotalWork(TApply(s, a).insts) < TotalWork(s.insts)
  {
    var d: nat :| d < |s.clients| && s.clients[d].StopLocked?;
    assert HoldsWrite(s.clients[d]);
    if a.Step? || a.CloseInstance? {
      var s' := TApply(s, a);
      assert s'.clients[d].StopLocked?;
      assert InstanceOk(s, a.t);
      if a.Step? {
        WorkDecreases(s.insts[a.t], a.a);
      }
      TotalWorkUpdate(s.insts, a.t, s'.insts[a.t]);
    }
  }

  /** ... and as long as Stop has not returned, some such step is enabled. */
  lemma StopProgress(s: TState) returns (a: TAction)
    requires TInv(s) && Stopping(s)
    ensures TEnabled(s, a)
  {
    var d: nat :| d < |s.clients| && s.clients[d].StopLocked?;
    assert HoldsWrite(s.clients[d]);
    if t :| t in s.insts && !s.insts[t].closed {
      a := CloseInstance(d, t);
    } else if t :| t in s.insts && !AllStopped(s.insts[t]) {
      assert InstanceOk(s, t);
      var b := Progress(s.insts[t]);
      assert !Awaiting(s, t);
      a := Step(t, b);
    } else {
      a := EndStop(d);
    }
  }

  ghost predicate IsTPath(s: TState, acts: seq<TAction>)
    decreases |acts|
  {
    |acts| > 0 ==> TEnabled(s, acts[0]) && IsTPath(TApply(s, acts[0]), acts[1..])
  }

  /** Stop always returns: from a state inside a Stop, no run of more than TotalWork steps avoids
      EndStop; and StopProgress shows that a run cannot get stuck before it. */
  lemma {:induction false} StopReturns(s: TState, acts: seq<TAction>)
    requires TInv(s) && Stopping(s) && IsTPath(s, acts)
    requires forall j: nat | j < |acts| :: !acts[j].EndStop?
    ensures |acts| <= TotalWork(s.insts)
    decreases |acts|
  {
    if |acts| > 0 {
      StopStepDecreases(s, acts[0]);
      TStepInv(s, acts[0]);
      StopReturns(TApply(s, acts[0]), acts[1..]);
    }
  }
}
