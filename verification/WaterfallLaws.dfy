/** What the parts of a waterfall pipeline (fn/waterfall.go) mean for its runs. */
module WaterfallLaws {
  import opened Wrappers
  import opened WaterfallSpec

  // ----- IfThen whose condition holds ----------------------------------------------------------

  /** Two runs that differ only in what their call `i` is handed: there the second one's function gets, but
      for a trailing abort function, what the first one's gets. */
  ghost predicate SameButFor(t: Trace, t': Trace, i: nat, f: Fn) {
    && t'.stop == t.stop && |t'.calls| == |t.calls|
    && forall k: nat | k < |t.calls| :: CallMatches(t, t', i, f, k)
  }

  ghost predicate CallMatches(t: Trace, t': Trace, i: nat, f: Fn, k: nat)
    requires k < |t.calls| && k < |t'.calls|
  {
    if k == i then t'.calls[k] != [] && InnerArgs(f, t'.calls[k]) == t.calls[k] else t'.calls[k] == t.calls[k]
  }

  /** What a wrapper's inputs come to for the wrapped function. */
  ghost predicate InnerSame(f: Fn, input: seq<Val>, input': seq<Val>) {
    && Accepts(f.ins, input) && Accepts(WrappedIns(f), input')
    && Converted(WrappedIns(f), input') != []
    && InnerArgs(f, Converted(WrappedIns(f), input')) == Converted(f.ins, input)
  }

  lemma InnerSameIs(f: Fn, input: seq<Val>, input': seq<Val>)
    requires Accepts(f.ins, input)
    requires input' == if HasAbortFnInput(f) then input else input + [AbortVal(FUNC)]
    ensures InnerSame(f, input, input')
  {
    if !HasAbortFnInput(f) {
      assert Converted(WrappedIns(f), input')[..|input|] == Converted(f.ins, input);
    }
  }

  /** Where both pipelines are accepted, the wrapper is handed just one abort function more, if its function
      takes none. */
  lemma WrapperInput(prev: Fn, f: Fn, w: Fn, vals: seq<Val>)
    requires HasTypes(vals, prev.outs) && w.ins == WrappedIns(f)
    requires TransOf(prev, f).Some? && TransOf(prev, w).Some?
    ensures InnerSame(f, ApplyTrans(TransOf(prev, f).value, vals), ApplyTrans(TransOf(prev, w).value, vals))
  {
    TransFits(prev, f, vals);
    var input, input' := ApplyTrans(TransOf(prev, f).value, vals), ApplyTrans(TransOf(prev, w).value, vals);
    assert input' == if HasAbortFnInput(f) then input else input + [AbortVal(FUNC)];
    InnerSameIs(f, input, input');
  }

  /** `w` takes what `f` does, but for a trailing abort function, and does what `f` does. */
  ghost predicate ActsAs(w: Fn, f: Fn) {
    && w.ins == WrappedIns(f) && w.outs == f.outs
    && forall args | args != [] :: w.run(args) == Inner(f, args)
  }

  lemma HitActsAs(f: Fn)
    ensures ActsAs(IfThenFn(true, f), f)
  {
  }

  /** `gs` is `fs` with such a function in place of function `i`. */
  ghost predicate Wrapped(fs: seq<Fn>, gs: seq<Fn>, i: nat) {
    && i < |fs| && |gs| == |fs| && ActsAs(gs[i], fs[i])
    && gs[..i] == fs[..i] && gs[i + 1..] == fs[i + 1..]
  }

  lemma WrappedElsewhere(fs: seq<Fn>, gs: seq<Fn>, i: nat, k: nat)
    requires Wrapped(fs, gs, i) && k < |fs|
    ensures k != i ==> gs[k] == fs[k]
    ensures gs[k].outs == fs[k].outs
  {
    if k < i {
      assert gs[k] == gs[..i][k] && fs[k] == fs[..i][k];
    } else if k > i {
      assert gs[k] == gs[i + 1..][k - i - 1] && fs[k] == fs[i + 1..][k - i - 1];
    }
  }

  /** Orderly runs of both pipelines. */
  ghost predicate BothRun(fs: seq<Fn>, gs: seq<Fn>, i: nat, t: Trace, t': Trace) {
    && Wrapped(fs, gs, i)
    && IsOrderly(fs, 0, t) && IsOrderly(gs, 0, t')
    && (forall f | f in fs :: WellTyped(f))
  }

  /** Calls that match have the same outcome. */
  lemma SameOutcome(fs: seq<Fn>, gs: seq<Fn>, i: nat, t: Trace, t': Trace, k: nat)
    requires Wrapped(fs, gs, i) && k < |t.calls| && k < |t'.calls| && k < |fs|
    requires CallMatches(t, t', i, fs[i], k)
    ensures gs[k].run(t'.calls[k]) == fs[k].run(t.calls[k])
    ensures Passed(gs[k], t'.calls[k]) <==> Passed(fs[k], t.calls[k])
  {
    WrappedElsewhere(fs, gs, i, k);
  }

  /** After matching calls, the next ones match. */
  lemma NextMatches(fs: seq<Fn>, gs: seq<Fn>, i: nat, t: Trace, t': Trace, k: nat)
    requires BothRun(fs, gs, i, t, t') && k + 1 < |t.calls| && k + 1 < |t'.calls|
    requires CallMatches(t, t', i, fs[i], k)
    ensures CallMatches(t, t', i, fs[i], k + 1)
  {
    assert CallLinked(fs, 0, t.calls, k) && CallLinked(gs, 0, t'.calls, k) && CallTyped(fs, 0, t.calls, k);
    SameOutcome(fs, gs, i, t, t', k);
    WrappedElsewhere(fs, gs, i, k);
    WrappedElsewhere(fs, gs, i, k + 1);
    assert fs[k] in fs;
    var outs := fs[k].run(t.calls[k]).outs;
    if k + 1 == i {
      WrapperInput(fs[k], fs[i], gs[i], outs);
    } else {
      SameTrans(fs[k], gs[k], fs[k + 1]);
    }
  }

  lemma SameTrans(prev: Fn, prev': Fn, next: Fn)
    requires prev'.outs == prev.outs
    ensures TransOf(prev', next) == TransOf(prev, next)
  {
  }

  lemma {:induction false} AllMatch(fs: seq<Fn>, gs: seq<Fn>, i: nat, t: Trace, t': Trace, k: nat)
    requires BothRun(fs, gs, i, t, t') && k < |t.calls| && k < |t'.calls|
    requires CallMatches(t, t', i, fs[i], 0)
    ensures CallMatches(t, t', i, fs[i], k)
  {
    if k > 0 {
      AllMatch(fs, gs, i, t, t', k - 1);
      NextMatches(fs, gs, i, t, t', k - 1);
    }
  }

  /** Where one run's last call has a match, the other run ends too, and for the same reason. */
  lemma SameEnd(fs: seq<Fn>, gs: seq<Fn>, i: nat, t: Trace, t': Trace, n: nat)
    requires BothRun(fs, gs, i, t, t') && n < |t.calls| && n < |t'.calls|
    requires CallMatches(t, t', i, fs[i], n) && (n + 1 == |t.calls| || n + 1 == |t'.calls|)
    ensures |t.calls| == |t'.calls| == n + 1 && t.stop == t'.stop
  {
    SameOutcome(fs, gs, i, t, t', n);
    assert CallLinked(fs, 0, t.calls, n) && CallLinked(gs, 0, t'.calls, n);
    StopIs(fs[n], t.calls[n]);
  }

  /** A call stops a run in one way. */
  lemma StopIs(f: Fn, args: seq<Val>)
    ensures forall s, s' | StopsWith(f, args, s) && StopsWith(f, args, s') :: s == s'
    ensures forall s | StopsWith(f, args, s) :: s.Finished? <==> Passed(f, args)
  {
  }

  lemma RunsMatch(fs: seq<Fn>, gs: seq<Fn>, i: nat, t: Trace, t': Trace)
    requires BothRun(fs, gs, i, t, t') && CallMatches(t, t', i, fs[i], 0)
    ensures SameButFor(t, t', i, fs[i])
  {
    var n := (if |t.calls| < |t'.calls| then |t.calls| else |t'.calls|) - 1;
    AllMatch(fs, gs, i, t, t', n);
    SameEnd(fs, gs, i, t, t', n);
    forall k: nat | k < |t.calls| ensures CallMatches(t, t', i, fs[i], k) {
      AllMatch(fs, gs, i, t, t', k);
    }
  }

  /** An IfThen whose condition holds is its function.  If both pipelines are accepted and the run's arguments
      suit both, putting function `i` inside one changes nothing about a run but that the wrapper is also
      handed an abort function if its function takes none. */
  lemma HitIsItsFunction(fs: seq<Fn>, i: nat, args: seq<Val>)
    requires i < |fs| && IsConditionFn(fs[i]) && Accepted(fs) && Accepted(fs[i := IfThenFn(true, fs[i])])
    requires forall f | f in fs :: WellTyped(f)
    requires Accepts(fs[0].ins, FirstInput(fs, args))
    requires i == 0 ==> Accepts(WrappedIns(fs[0]), FirstInput(fs[0 := IfThenFn(true, fs[0])], args))
    ensures SameButFor(RunAll(fs, args), RunAll(fs[i := IfThenFn(true, fs[i])], args), i, fs[i])
  {
    var gs := fs[i := IfThenFn(true, fs[i])];
    HitActsAs(fs[i]);
    assert gs[..i] == fs[..i] && gs[i + 1..] == fs[i + 1..];
    GsTyped(fs, i);
    if i == 0 {
      InnerSameIs(fs[0], FirstInput(fs, args), FirstInput(gs, args));
    } else {
      assert gs[0] == fs[0] && FirstInput(gs, args) == FirstInput(fs, args);
    }
    RunAllIsOrderly(fs, args);
    RunAllIsOrderly(gs, args);
    RunsMatch(fs, gs, i, RunAll(fs, args), RunAll(gs, args));
  }

  lemma GsTyped(fs: seq<Fn>, i: nat)
    requires i < |fs| && IsConditionFn(fs[i]) && forall f | f in fs :: WellTyped(f)
    ensures forall g | g in fs[i := IfThenFn(true, fs[i])] :: WellTyped(g)
  {
    assert fs[i] in fs;
    WrappersWellTyped(true, fs[i]);
  }

  // ----- IfThen and Case whose condition fails ---------------------------------------------------

  /** A skipped IfThen or Case is not there: after `prev` returned `vals` and left the abort function to the
      runner, the next function is called with exactly what it would have been called with right after
      `prev`.  (The types between must not end in an error, which would be taken off once more.) */
  lemma SkippedIsAbsent(prev: Fn, f: Fn, w: Fn, next: Fn, vals: seq<Val>)
    requires IsConditionFn(f) && (w == IfThenFn(false, f) || w == CaseFn(false, f))
    requires HasTypes(vals, prev.outs) && TransOf(prev, w).Some? && TransOf(w, next).Some?
    requires NeedsAbort(OutArgs(prev), w.ins) && !LastIs(f.outs, IsErrType)
    ensures TransOf(prev, next).Some?
    ensures
      var input := ApplyTrans(TransOf(prev, w).value, vals);
      Accepts(w.ins, input) &&
      var o := w.run(Converted(w.ins, input));
      && o == Returned(Stripped(prev, vals), false)
      && ApplyTrans(TransOf(w, next).value, o.outs) == ApplyTrans(TransOf(prev, next).value, vals)
  {
    SkippedTypes(prev, f, w, next);
    SkippedInput(prev, f, w, vals);
    SkippedReturns(f, w, Stripped(prev, vals));
  }

  lemma SkippedTypes(prev: Fn, f: Fn, w: Fn, next: Fn)
    requires IsConditionFn(f) && w.ins == WrappedIns(f) && w.outs == f.outs
    requires TransOf(prev, w).Some? && TransOf(w, next).Some?
    requires NeedsAbort(OutArgs(prev), w.ins) && !LastIs(f.outs, IsErrType)
    ensures OutArgs(prev) == f.outs == OutArgs(w)
    ensures TransOf(prev, next) == Some(Trans(LastIs(prev.outs, IsErrType), NeedsAbort(f.outs, next.ins)))
    ensures TransOf(w, next) == Some(Trans(false, NeedsAbort(f.outs, next.ins)))
  {
  }

  lemma SkippedInput(prev: Fn, f: Fn, w: Fn, vals: seq<Val>)
    requires |vals| == |prev.outs| && HasTypes(vals, prev.outs) && OutArgs(prev) == f.outs
    requires TransOf(prev, w).Some? && NeedsAbort(OutArgs(prev), w.ins)
    ensures ApplyTrans(TransOf(prev, w).value, vals) == Stripped(prev, vals) + [AbortVal(FUNC)]
    ensures HasTypes(Stripped(prev, vals), f.outs)
  {
    StrippedIs(prev, vals);
  }

  lemma SkippedReturns(f: Fn, w: Fn, own: seq<Val>)
    requires IsConditionFn(f) && (w == IfThenFn(false, f) || w == CaseFn(false, f))
    requires HasTypes(own, f.outs)
    ensures Accepts(w.ins, own + [AbortVal(FUNC)])
    ensures w.run(Converted(w.ins, own + [AbortVal(FUNC)])) == Returned(own, false)
  {
    var args := Converted(w.ins, own + [AbortVal(FUNC)]);
    assert args[..|args| - 1] == own;
  }

  /** A hit Case that returns, returns what its function did. */
  lemma CaseReturnsItsFunctions(f: Fn, args: seq<Val>)
    requires args != [] && CaseFn(true, f).run(args).Returned?
    ensures f.run(InnerArgs(f, args)).Returned? && CaseFn(true, f).run(args).outs == f.run(InnerArgs(f, args)).outs
  {
  }

  // ----- What the checks accept ----------------------------------------------------------------

  /** Go's interface type error. */
  const ERROR_TYPE := Ty(Some(1), {ERROR_METHOD}, Interface)

  lemma IsErrTypeIs(t: Ty)
    ensures IsErrType(t) <==> Assignable(t, ERROR_TYPE)
  {
  }

  /** What a function hands on: its outputs but for an error in last place. */
  function HandsOn(outs: seq<Ty>): seq<Ty> {
    if outs != [] && Assignable(outs[|outs| - 1], ERROR_TYPE) then outs[..|outs| - 1] else outs
  }

  /** Two neighbours are accepted exactly if the second takes what the first hands on, or that and a
      parameterless function. */
  lemma AcceptedExactly(prev: Fn, next: Fn)
    ensures TransOf(prev, next).Some? <==>
      || next.ins == HandsOn(prev.outs)
      || exists t: Ty :: t.under == Signature([], []) && next.ins == HandsOn(prev.outs) + [t]
  {
    var own := HandsOn(prev.outs);
    assert OutArgs(prev) == own;
    if TransOf(prev, next).Some? && next.ins != own {
      assert next.ins == own + [next.ins[|own|]];
    }
    if t: Ty :| t.under == Signature([], []) && next.ins == own + [t] {
      assert next.ins[..|next.ins| - 1] == own;
    }
  }

  /** IfThen and Case take exactly functions whose outputs are their inputs, but for a parameterless function
      in last place. */
  lemma ConditionFnIs(f: Fn)
    ensures IsConditionFn(f) <==>
      f.ins == f.outs || exists t: Ty :: t.under == Signature([], []) && f.ins == f.outs + [t]
  {
    if IsConditionFn(f) && f.ins != f.outs {
      assert f.ins == f.outs + [f.ins[|f.outs|]];
    }
    if t: Ty :| t.under == Signature([], []) && f.ins == f.outs + [t] {
      assert f.ins[..|f.ins| - 1] == f.outs;
    }
  }

  // ----- How a run begins and ends -------------------------------------------------------------

  /** The first function is called with the run's arguments, and with the runner's abort function if it wants
      one parameterless function more. */
  lemma FirstCall(fs: seq<Fn>, args: seq<Val>)
    requires fs != [] && Accepted(fs) && forall f | f in fs :: WellTyped(f)
    requires Accepts(fs[0].ins, FirstInput(fs, args))
    ensures RunAll(fs, args).calls != []
    ensures |args| == |fs[0].ins| ==> RunAll(fs, args).calls[0] == Converted(fs[0].ins, args)
    ensures |args| + 1 == |fs[0].ins| ==>
      var n := |args|;
      RunAll(fs, args).calls[0] == Converted(fs[0].ins[..n], args) + [AbortVal(fs[0].ins[n])]
  {
    RunAllIsOrderly(fs, args);
    if |args| + 1 == |fs[0].ins| {
      assert FirstInput(fs, args) == args + [AbortVal(FUNC)];
      assert Converted(fs[0].ins, args + [AbortVal(FUNC)])
          == Converted(fs[0].ins[..|args|], args) + [AbortVal(fs[0].ins[|args|])];
    }
  }

  /** Outputs that end in an error: a value of a type with that method which is not a nil interface. */
  predicate EndsInError(outs: seq<Val>) {
    && outs != [] && Assignable(outs[|outs| - 1].ty, ERROR_TYPE)
    && !(outs[|outs| - 1].Data? && outs[|outs| - 1].isNil && outs[|outs| - 1].ty.under.Interface?)
  }

  /** A run goes through its functions as long as each returns, without an error and without aborting.  It
      fails exactly if its last call ends in an error, and then with that error; an abort counts only where
      there is none. */
  lemma RunEnds(fs: seq<Fn>, args: seq<Val>)
    requires fs != [] && Accepted(fs) && forall f | f in fs :: WellTyped(f)
    requires Accepts(fs[0].ins, FirstInput(fs, args))
    ensures
      var t := RunAll(fs, args);
      var n := |t.calls| - 1;
      && 0 <= n < |fs|
      && (forall k: nat | k < n :: var o := fs[k].run(t.calls[k]); o.Returned? && !EndsInError(o.outs) && !o.aborted)
      && var o := fs[n].run(t.calls[n]);
      && (t.stop.Crashed? <==> o.Panicked?)
      && (t.stop.Failed? <==> o.Returned? && EndsInError(o.outs))
      && (t.stop.Failed? ==> t.stop.err == o.outs[|o.outs| - 1])
      && (t.stop.Aborted? <==> o.Returned? && !EndsInError(o.outs) && o.aborted)
      && (t.stop.Finished? ==> n + 1 == |fs|)
  {
    RunAllIsOrderly(fs, args);
    var t := RunAll(fs, args);
    forall k: nat | k + 1 < |t.calls| ensures Passed(fs[k], t.calls[k]) {
      assert CallLinked(fs, 0, t.calls, k);
    }
    forall outs ensures PickErr(outs).Some? <==> EndsInError(outs) {
      PickErrIs(outs);
    }
  }

  lemma PickErrIs(outs: seq<Val>)
    ensures PickErr(outs).Some? <==> EndsInError(outs)
    ensures EndsInError(outs) ==> PickErr(outs) == Some(outs[|outs| - 1])
  {
  }
}
