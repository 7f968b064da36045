/** Whole calls of the typed broadcaster (broadcast/typed_broadcast.go): what a Notify, an AddListener and a
    Stop do between their beginning and their return, whatever runs beside them. */
module BroadcastCalls {
  import opened C = BroadcastChain
  import opened T = BroadcastTyped

  /** Step `k` of a run. */
  ghost predicate TStepAt(run: seq<TState>, acts: seq<TAction>, k: nat)
    requires k < |acts| < |run|
  {
    TInv(run[k]) && TEnabled(run[k], acts[k]) && run[k + 1] == TApply(run[k], acts[k])
  }

  ghost predicate Steps(run: seq<TState>, acts: seq<TAction>) {
    |acts| < |run| && forall k: nat {:trigger TStepAt(run, acts, k)} | k < |acts| :: TStepAt(run, acts, k)
  }

  lemma RunSteps(run: seq<TState>, acts: seq<TAction>)
    requires IsTRun(run, acts)
    ensures Steps(run, acts)
  {
    forall k: nat | k < |acts| ensures TStepAt(run, acts, k) {
      TRunInv(run, acts, k);
    }
  }

  // ----- Notify --------------------------------------------------------------------------------

  /** Where client position `p` can be inside Notify(v) of type `t`, after `sends` sends, when `t` is known to
      the broadcaster or not. */
  predicate InNotify(p: ClientPc, t: nat, v: Payload, known: bool, sends: nat) {
    || (p == NotifyLocked(t, v) && sends == 0)
    || (p == NotifySending(t, v) && known && sends == 0)
    || (p.NotifyReturning? && sends == if known then 1 else 0)
  }

  /** The read lock keeps the map as it is. */
  lemma ReadKeepsMap(s: TState, a: TAction, c: nat)
    requires TInv(s) && TEnabled(s, a) && c < |s.clients| && HoldsRead(s.clients[c])
    ensures TApply(s, a).insts.Keys == s.insts.Keys && !a.EndStop? && !a.FindOrCreate?
  {
    if a.FindOrCreate? || a.EndStop? {
      assert HoldsWrite(s.clients[a.c]);
    }
  }

  lemma NotifyStep(s: TState, a: TAction, c: nat, t: nat, v: Payload, sends: nat)
    requires TInv(s) && TEnabled(s, a) && a != EndNotify(c)
    requires c < |s.clients| && InNotify(s.clients[c], t, v, t in s.insts, sends)
    ensures
      var s' := TApply(s, a);
      && c < |s'.clients| && !a.EndStop? && (t in s'.insts <==> t in s.insts)
      && InNotify(s'.clients[c], t, v, t in s.insts, sends + if a == Send(c) then 1 else 0)
    ensures a == Send(c) ==> s.clients[c] == NotifySending(t, v) && sends == 0
  {
    ReadKeepsMap(s, a, c);
    assert t in TApply(s, a).insts <==> t in TApply(s, a).insts.Keys;
  }

  /** How many of the steps from `j` to `m` are sends of client `c`. */
  function Sends(acts: seq<TAction>, c: nat, j: nat, m: nat): nat
    requires j <= m <= |acts|
    decreases m
  {
    if j == m then 0 else Sends(acts, c, j, m - 1) + if acts[m - 1] == Send(c) then 1 else 0
  }

  /** Client `c` begins Notify(v) of type `t` at step `j` and does not end it before `m`. */
  predicate Notifying(acts: seq<TAction>, j: nat, m: nat, c: nat, t: nat, v: Payload) {
    && j < m <= |acts| && acts[j] == BeginNotify(c, t, v)
    && forall i: nat | j < i < m :: acts[i] != EndNotify(c)
  }

  lemma {:induction false} DuringNotify(run: seq<TState>, acts: seq<TAction>, j: nat, m: nat, c: nat, t: nat,
                                        v: Payload)
    requires Steps(run, acts)
    requires Notifying(acts, j, m, c, t, v)
    ensures c < |run[m].clients| && (t in run[m].insts <==> t in run[j].insts)
    ensures InNotify(run[m].clients[c], t, v, t in run[j].insts, Sends(acts, c, j, m))
    ensures forall i: nat | j <= i < m :: !acts[i].EndStop?
    ensures forall i: nat | j <= i < m && acts[i] == Send(c) ::
      c < |run[i].clients| && run[i].clients[c] == NotifySending(t, v)
    decreases m
  {
    if m == j + 1 {
      assert TStepAt(run, acts, j);
      NotifyBegins(run[j], acts[j], c, t, v);
      assert Sends(acts, c, j, j) == 0;
    } else {
      DuringNotify(run, acts, j, m - 1, c, t, v);
      NotifyNext(run, acts, j, m - 1, c, t, v);
    }
  }

  lemma NotifyNext(run: seq<TState>, acts: seq<TAction>, j: nat, k: nat, c: nat, t: nat, v: Payload)
    requires Steps(run, acts)
    requires j < k && Notifying(acts, j, k + 1, c, t, v)
    requires c < |run[k].clients| && (t in run[k].insts <==> t in run[j].insts)
    requires InNotify(run[k].clients[c], t, v, t in run[j].insts, Sends(acts, c, j, k))
    ensures c < |run[k + 1].clients| && (t in run[k + 1].insts <==> t in run[j].insts) && !acts[k].EndStop?
    ensures InNotify(run[k + 1].clients[c], t, v, t in run[j].insts, Sends(acts, c, j, k + 1))
    ensures acts[k] == Send(c) ==> run[k].clients[c] == NotifySending(t, v)
  {
    assert TStepAt(run, acts, k);
    NotifyStep(run[k], acts[k], c, t, v, Sends(acts, c, j, k));
  }

  lemma NotifyBegins(s: TState, a: TAction, c: nat, t: nat, v: Payload)
    requires TEnabled(s, a) && a == BeginNotify(c, t, v)
    ensures
      var s' := TApply(s, a);
      c < |s'.clients| && s'.clients[c] == NotifyLocked(t, v) && s'.insts == s.insts
  {
  }

  lemma {:induction false} OneSend(acts: seq<TAction>, c: nat, j: nat, m: nat) returns (i: nat)
    requires j <= m <= |acts| && Sends(acts, c, j, m) == 1
    ensures j <= i < m && acts[i] == Send(c)
    ensures forall k: nat | j <= k < m && acts[k] == Send(c) :: k == i
    decreases m
  {
    if acts[m - 1] == Send(c) {
      i := m - 1;
      NoSend(acts, c, j, m - 1);
    } else {
      i := OneSend(acts, c, j, m - 1);
    }
  }

  lemma {:induction false} NoSend(acts: seq<TAction>, c: nat, j: nat, m: nat)
    requires j <= m <= |acts| && Sends(acts, c, j, m) == 0
    ensures forall k: nat | j <= k < m :: acts[k] != Send(c)
    decreases m
  {
    if j < m {
      NoSend(acts, c, j, m - 1);
    }
  }

  /** A Notify call that has returned sent its payload exactly once if the broadcaster knew the type, and
      nothing otherwise. */
  lemma NotifySends(run: seq<TState>, acts: seq<TAction>, j: nat, m: nat, c: nat, t: nat, v: Payload)
    requires IsTRun(run, acts)
    requires Notifying(acts, j, m, c, t, v) && m < |acts| && acts[m] == EndNotify(c)
    ensures t in run[j].insts ==> exists i: nat ::
      && j < i < m && acts[i] == Send(c) && SentBy(run[i], acts[i], t) == [v]
      && forall k: nat | j <= k < m && acts[k] == Send(c) :: k == i
    ensures t !in run[j].insts ==> forall k: nat | j <= k < m :: acts[k] != Send(c)
  {
    RunSteps(run, acts);
    DuringNotify(run, acts, j, m, c, t, v);
    assert TStepAt(run, acts, m);
    if t in run[j].insts {
      var i := OneSend(acts, c, j, m);
      assert i != j;
    } else {
      NoSend(acts, c, j, m);
    }
  }

  // ----- AddListener ---------------------------------------------------------------------------

  /** Where client position `p` can be inside AddListener for type `t`, with the map holding `t` or not. */
  predicate InAdd(p: ClientPc, t: nat, known: bool, receipts: nat) {
    || (p == AddLocked(t) && receipts == 0)
    || ((p == AddSubmitting(t) || p == AddAwaiting(t)) && known && receipts == 0)
    || (p.AddReturning? && known && receipts == 1)
  }

  lemma AddStep(s: TState, a: TAction, c: nat, t: nat, receipts: nat)
    requires TInv(s) && TEnabled(s, a) && a != EndAdd(c)
    requires c < |s.clients| && InAdd(s.clients[c], t, t in s.insts, receipts)
    ensures
      var s' := TApply(s, a);
      && c < |s'.clients| && !a.EndStop?
      && InAdd(s'.clients[c], t, t in s'.insts, receipts + if a == Receipt(c) then 1 else 0)
    ensures a == Receipt(c) ==> s.clients[c] == AddAwaiting(t) && receipts == 0
  {
    assert HoldsWrite(s.clients[c]);
  }

  function Receipts(acts: seq<TAction>, c: nat, j: nat, m: nat): nat
    requires j <= m <= |acts|
    decreases m
  {
    if j == m then 0 else Receipts(acts, c, j, m - 1) + if acts[m - 1] == Receipt(c) then 1 else 0
  }

  /** Client `c` begins AddListener for type `t` at step `j` and does not end it before `m`. */
  predicate Registering(acts: seq<TAction>, j: nat, m: nat, c: nat, t: nat) {
    && j < m <= |acts| && acts[j] == BeginAdd(c, t)
    && forall i: nat | j < i < m :: acts[i] != EndAdd(c)
  }

  lemma {:induction false} DuringAdd(run: seq<TState>, acts: seq<TAction>, j: nat, m: nat, c: nat, t: nat)
    requires Steps(run, acts)
    requires Registering(acts, j, m, c, t)
    ensures c < |run[m].clients| && InAdd(run[m].clients[c], t, t in run[m].insts, Receipts(acts, c, j, m))
    ensures forall i: nat | j <= i < m :: !acts[i].EndStop?
    ensures forall i: nat | j <= i < m && acts[i] == Receipt(c) ::
      c < |run[i].clients| && run[i].clients[c] == AddAwaiting(t)
    decreases m
  {
    if m == j + 1 {
      assert TStepAt(run, acts, j);
      AddBegins(run[j], acts[j], c, t);
      assert Receipts(acts, c, j, j) == 0;
    } else {
      DuringAdd(run, acts, j, m - 1, c, t);
      AddNext(run, acts, j, m - 1, c, t);
    }
  }

  lemma AddNext(run: seq<TState>, acts: seq<TAction>, j: nat, k: nat, c: nat, t: nat)
    requires Steps(run, acts)
    requires j < k && Registering(acts, j, k + 1, c, t)
    requires c < |run[k].clients| && InAdd(run[k].clients[c], t, t in run[k].insts, Receipts(acts, c, j, k))
    ensures c < |run[k + 1].clients| && !acts[k].EndStop?
    ensures InAdd(run[k + 1].clients[c], t, t in run[k + 1].insts, Receipts(acts, c, j, k + 1))
    ensures acts[k] == Receipt(c) ==> run[k].clients[c] == AddAwaiting(t)
  {
    assert TStepAt(run, acts, k);
    AddStep(run[k], acts[k], c, t, Receipts(acts, c, j, k));
  }

  lemma AddBegins(s: TState, a: TAction, c: nat, t: nat)
    requires TEnabled(s, a) && a == BeginAdd(c, t)
    ensures
      var s' := TApply(s, a);
      c < |s'.clients| && s'.clients[c] == AddLocked(t) && s'.insts == s.insts
  {
  }

  lemma {:induction false} SomeReceipt(acts: seq<TAction>, c: nat, j: nat, m: nat) returns (i: nat)
    requires j <= m <= |acts| && Receipts(acts, c, j, m) == 1
    ensures j <= i < m && acts[i] == Receipt(c)
    ensures forall k: nat | j <= k < m && acts[k] == Receipt(c) :: k == i
    decreases m
  {
    if acts[m - 1] == Receipt(c) {
      i := m - 1;
      NoReceipt(acts, c, j, m - 1);
    } else {
      i := SomeReceipt(acts, c, j, m - 1);
    }
  }

  lemma {:induction false} NoReceipt(acts: seq<TAction>, c: nat, j: nat, m: nat)
    requires j <= m <= |acts| && Receipts(acts, c, j, m) == 0
    ensures forall k: nat | j <= k < m :: acts[k] != Receipt(c)
    decreases m
  {
    if j < m {
      NoReceipt(acts, c, j, m - 1);
    }
  }

  /** The receipt of AddListener's rendezvous comes with one more listener. */
  lemma ReceiptAdds(run: seq<TState>, acts: seq<TAction>, i: nat, c: nat, t: nat)
    requires |run| == |acts| + 1 && i < |acts| && TStepAt(run, acts, i)
    requires acts[i] == Receipt(c) && c < |run[i].clients| && run[i].clients[c] == AddAwaiting(t)
    ensures t in run[i].insts && t in run[i + 1].insts
    ensures |run[i + 1].insts[t].listeners| == |run[i].insts[t].listeners| + 1
  {
  }

  /** An AddListener call that has returned registered exactly one listener, with the instance of its type. */
  lemma AddRegisters(run: seq<TState>, acts: seq<TAction>, j: nat, m: nat, c: nat, t: nat) returns (i: nat)
    requires IsTRun(run, acts)
    requires Registering(acts, j, m, c, t) && m < |acts| && acts[m] == EndAdd(c)
    ensures j < i < m && acts[i] == Receipt(c) && c < |run[i].clients| && run[i].clients[c] == AddAwaiting(t)
    ensures forall k: nat | j <= k < m && acts[k] == Receipt(c) :: k == i
    ensures forall k: nat | j <= k < m :: !acts[k].EndStop?
    ensures t in run[i].insts && t in run[i + 1].insts
    ensures |run[i + 1].insts[t].listeners| == |run[i].insts[t].listeners| + 1
  {
    RunSteps(run, acts);
    DuringAdd(run, acts, j, m, c, t);
    assert TStepAt(run, acts, m);
    i := SomeReceipt(acts, c, j, m);
    ReceiptAdds(run, acts, i, c, t);
  }

  // ----- From AddListener through Notify to Stop -------------------------------------------------

  lemma {:induction false} SentToGrows(run: seq<TState>, acts: seq<TAction>, j: nat, m: nat, t: nat)
    requires j <= m <= |acts| <= |run| && forall i: nat | j <= i < m :: !acts[i].EndStop?
    ensures SentTo(run, acts, j, t) <= SentTo(run, acts, m, t)
    decreases m
  {
    if j < m {
      SentToGrows(run, acts, j, m - 1, t);
    }
  }

  /** The place of the payload that step `i` sends. */
  lemma SentAt(run: seq<TState>, acts: seq<TAction>, i: nat, m: nat, t: nat, v: Payload)
    requires i < m <= |acts| <= |run| && SentBy(run[i], acts[i], t) == [v]
    requires forall k: nat | i <= k < m :: !acts[k].EndStop?
    ensures |SentTo(run, acts, i, t)| < |SentTo(run, acts, m, t)|
    ensures SentTo(run, acts, m, t)[|SentTo(run, acts, i, t)|] == v
  {
    SentToGrows(run, acts, i + 1, m, t);
    var at := |SentTo(run, acts, i, t)|;
    assert SentTo(run, acts, i + 1, t) == SentTo(run, acts, i, t) + [v];
    assert SentTo(run, acts, m, t)[..|SentTo(run, acts, i + 1, t)|][at] == v;
  }

  /** A type that a listener was registered for stays known until the next Stop returns. */
  lemma StaysKnown(run: seq<TState>, acts: seq<TAction>, i: nat, m: nat, t: nat)
    requires IsTRun(run, acts) && i < m < |run| && acts[i].Receipt? && acts[i].c < |run[i].clients|
    requires run[i].clients[acts[i].c] == AddAwaiting(t)
    requires forall k: nat | i <= k < m :: !acts[k].EndStop?
    ensures t in run[m].insts
  {
    RegisteredLater(run, acts, i, m, t);
  }

  /** Delivery, from call to call.  An AddListener for type `t` returns; then a Notify(v) of that type begins
      and returns; then a Stop returns.  The listener that the first call registered has handled v for the
      second: it handled, in order, all that was sent from its registration on, and v is where the call's
      send put it. */
  lemma NotifyDelivered(run: seq<TState>, acts: seq<TAction>, a: nat, b: nat, ca: nat,
                        j: nat, m: nat, c: nat, t: nat, v: Payload, e: nat)
    returns (i: nat, k: nat)
    requires IsTRun(run, acts)
    requires Registering(acts, a, b, ca, t) && b < |acts| && acts[b] == EndAdd(ca)
    requires b < j && Notifying(acts, j, m, c, t, v) && m < |acts| && acts[m] == EndNotify(c)
    requires m < e < |acts| && acts[e].EndStop? && forall x: nat | b <= x < e :: !acts[x].EndStop?
    ensures a < i < b && acts[i] == Receipt(ca) && t in run[i].insts && t in run[e].insts
    ensures j < k < m && acts[k] == Send(c)
    ensures |run[i].insts[t].listeners| < |run[e].insts[t].listeners|
    ensures
      var l := run[e].insts[t].listeners[|run[i].insts[t].listeners|];
      var at := |SentTo(run, acts, k, t)| - |SentTo(run, acts, i, t)|;
      0 <= at < |l.handled| && l.handled[at] == v
  {
    i := AddRegisters(run, acts, a, b, ca, t);
    assert forall x: nat | i <= x < e :: !acts[x].EndStop?;
    StaysKnown(run, acts, i, j, t);
    NotifySends(run, acts, j, m, c, t, v);
    k :| j < k < m && acts[k] == Send(c) && SentBy(run[k], acts[k], t) == [v];
    EndToEnd(run, acts, i, e, t);
    SentToGrows(run, acts, i, k, t);
    SentAt(run, acts, k, e, t, v);
  }
}
