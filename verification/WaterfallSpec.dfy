/** The typed waterfall of fn/waterfall.go: function types, the checks that accept a pipeline, the
    Case and IfThen wrappers, and what a run of a fresh runner does. */
module WaterfallSpec {
  import opened Wrappers

  /** A Go type: its name, if it has one, its methods and its underlying type. */
  datatype Ty = Ty(name: Option<nat>, methods: set<nat>, under: Under)

  datatype Direction = Both | SendOnly | ReceiveOnly

  /** An underlying type: an interface, a function signature, a channel, or anything else. */
  datatype Under =
    | Interface
    | Signature(ins: seq<Ty>, outs: seq<Ty>)
    | Channel(elem: Ty, dir: Direction)
    | Other(id: nat)

  /** The number of the method Error() string. */
  const ERROR_METHOD := 0

  /** func(), and the named type that the wrappers append. */
  const FUNC := Ty(None, {}, Signature([], []))
  const ABORT_FUNCTION := Ty(Some(0), {}, Signature([], []))

  /** Go's assignability: identical types, an interface that the type implements, or where at most one side
      has a name, one underlying type, or a two-way channel to any channel of its elements. */
  predicate Assignable(t: Ty, u: Ty) {
    || t == u
    || (u.under.Interface? && u.methods <= t.methods)
    || ((t.name.None? || u.name.None?)
        && ((t.under == u.under && !t.under.Interface?)
            || (u.under.Channel? && t.under == Channel(u.under.elem, Both))))
  }

  predicate IsErrType(t: Ty) {
    ERROR_METHOD in t.methods
  }

  predicate IsAbortFnType(t: Ty) {
    t.under == Signature([], [])
  }

  /** What calling a parameterless function does to the run: nothing, set the abort flag, or panic. */
  datatype Effect = Inert | Aborts | Panics

  /** A value with its static type: the user's, possibly nil, with the effect of calling it if it is a
      function; or the runner's own abort function. */
  datatype Val = Data(ty: Ty, isNil: bool, id: nat, effect: Effect) | AbortVal(ty: Ty)

  function Calling(v: Val): Effect {
    if v.AbortVal? then Aborts else if v.isNil then Panics else v.effect
  }

  /** What a call does: panic, or return; `aborted` says that the abort flag was set. */
  datatype Outcome = Returned(outs: seq<Val>, aborted: bool) | Panicked

  datatype Fn = Fn(ins: seq<Ty>, outs: seq<Ty>, run: seq<Val> -> Outcome)

  predicate HasTypes(vals: seq<Val>, tys: seq<Ty>) {
    |vals| == |tys| && forall k: nat | k < |vals| :: vals[k].ty == tys[k]
  }

  /** What reflect.Call accepts. */
  predicate Accepts(ins: seq<Ty>, args: seq<Val>) {
    |args| == |ins| && forall k: nat | k < |args| :: Assignable(args[k].ty, ins[k])
  }

  /** A value as a parameter of type `t`: a nil pointer in an interface is not a nil interface. */
  function Convert(v: Val, t: Ty): Val {
    if v.AbortVal? then AbortVal(t)
    else v.(ty := t, isNil := v.isNil && (v.ty.under.Interface? || !t.under.Interface?))
  }

  /** The arguments as the function sees them. */
  function Converted(ins: seq<Ty>, args: seq<Val>): (r: seq<Val>)
    requires |args| == |ins|
    ensures HasTypes(r, ins)
    ensures forall k: nat | k < |r| && !ins[k].under.Interface? :: Calling(r[k]) == Calling(args[k])
  {
    seq(|args|, k requires 0 <= k < |args| => Convert(args[k], ins[k]))
  }

  /** Go's own typing: a function returns what it declares. */
  ghost predicate WellTyped(f: Fn) {
    forall args | HasTypes(args, f.ins) && f.run(args).Returned? :: HasTypes(f.run(args).outs, f.outs)
  }

  // ----- genTransFunc --------------------------------------------------------------------------

  /** How one function's outputs become the next one's inputs. */
  datatype Trans = Trans(stripErr: bool, appendAbort: bool)

  predicate LastIs(tys: seq<Ty>, p: Ty -> bool) {
    tys != [] && p(tys[|tys| - 1])
  }

  function OutArgs(prev: Fn): seq<Ty> {
    if LastIs(prev.outs, IsErrType) then prev.outs[..|prev.outs| - 1] else prev.outs
  }

  predicate NeedsAbort(outArgs: seq<Ty>, ins: seq<Ty>) {
    |ins| == |outArgs| + 1 && IsAbortFnType(ins[|ins| - 1])
  }

  /** The transformation, or None when the types do not match. */
  function TransOf(prev: Fn, next: Fn): Option<Trans> {
    var outArgs := OutArgs(prev);
    var abort := NeedsAbort(outArgs, next.ins);
    var inArgs := if abort then next.ins[..|next.ins| - 1] else next.ins;
    if inArgs == outArgs then Some(Trans(LastIs(prev.outs, IsErrType), abort)) else None
  }

  function ApplyTrans(t: Trans, vals: seq<Val>): seq<Val> {
    var vals := if t.stripErr && vals != [] then vals[..|vals| - 1] else vals;
    if t.appendAbort then vals + [AbortVal(FUNC)] else vals
  }

  /** Accepted neighbours fit: what the first returns is, after the transformation, what the second
      declares. */
  lemma TransFits(prev: Fn, next: Fn, vals: seq<Val>)
    requires TransOf(prev, next).Some? && HasTypes(vals, prev.outs)
    ensures Accepts(next.ins, ApplyTrans(TransOf(prev, next).value, vals))
  {
    var t := TransOf(prev, next).value;
    var stripped := if t.stripErr && vals != [] then vals[..|vals| - 1] else vals;
    assert HasTypes(stripped, OutArgs(prev));
  }

  // ----- CaseBy and IfThenBy -------------------------------------------------------------------

  predicate HasAbortFnInput(f: Fn) {
    |f.ins| == |f.outs| + 1 && IsAbortFnType(f.ins[|f.ins| - 1])
  }

  /** mustBeConditionThenFunction: outputs repeat the inputs, but for an optional abort function. */
  predicate IsConditionFn(f: Fn) {
    f.outs == f.ins || (HasAbortFnInput(f) && f.outs == f.ins[..|f.ins| - 1])
  }

  function WrappedIns(f: Fn): seq<Ty> {
    if HasAbortFnInput(f) then f.ins else f.ins + [ABORT_FUNCTION]
  }

  /** The arguments of the wrapped function: all, or all but the trailing abort function. */
  function InnerArgs(f: Fn, args: seq<Val>): seq<Val>
    requires args != []
  {
    if HasAbortFnInput(f) then args else args[..|args| - 1]
  }

  function Inner(f: Fn, args: seq<Val>): Outcome
    requires args != []
  {
    f.run(InnerArgs(f, args))
  }

  function IfThenFn(cond: bool, f: Fn): Fn {
    Fn(WrappedIns(f), f.outs,
       (args: seq<Val>) => if args == [] then Panicked
               else if cond then Inner(f, args)
               else Returned(args[..|args| - 1], false))
  }

  /** What CaseBy adds after the wrapped function returned: it calls the function it got last, whoever
      that is from. */
  function ThenCall(last: Val, o: Outcome): Outcome {
    if o.Panicked? || Calling(last).Panics? then Panicked
    else Returned(o.outs, o.aborted || Calling(last).Aborts?)
  }

  function CaseFn(cond: bool, f: Fn): Fn {
    Fn(WrappedIns(f), f.outs,
       (args: seq<Val>) => if args == [] then Panicked
               else if cond then ThenCall(args[|args| - 1], Inner(f, args))
               else Returned(args[..|args| - 1], false))
  }

  /** The wrapped function is called with what it declares, and both branches return what it declares. */
  lemma WrappedTypes(f: Fn, args: seq<Val>)
    requires IsConditionFn(f) && HasTypes(args, WrappedIns(f))
    ensures args != [] && HasTypes(InnerArgs(f, args), f.ins) && HasTypes(args[..|args| - 1], f.outs)
    ensures WellTyped(f) && Inner(f, args).Returned? ==> HasTypes(Inner(f, args).outs, f.outs)
  {
  }

  lemma WrappersReturn(cond: bool, f: Fn, args: seq<Val>)
    requires IsConditionFn(f) && WellTyped(f) && HasTypes(args, WrappedIns(f))
    ensures IfThenFn(cond, f).run(args).Returned? ==> HasTypes(IfThenFn(cond, f).run(args).outs, f.outs)
    ensures CaseFn(cond, f).run(args).Returned? ==> HasTypes(CaseFn(cond, f).run(args).outs, f.outs)
  {
    WrappedTypes(f, args);
  }

  /** The wrappers are as well typed as what they wrap. */
  lemma WrappersWellTyped(cond: bool, f: Fn)
    requires IsConditionFn(f) && WellTyped(f)
    ensures WellTyped(IfThenFn(cond, f)) && WellTyped(CaseFn(cond, f))
  {
    forall args | HasTypes(args, WrappedIns(f)) {
      WrappersReturn(cond, f, args);
    }
  }

  // ----- A run ---------------------------------------------------------------------------------

  /** The error a function returned, if its last output is one and not the nil interface. */
  function PickErr(outs: seq<Val>): Option<Val> {
    if outs == [] then None
    else
      var v := outs[|outs| - 1];
      if IsErrType(v.ty) && !(v.Data? && v.isNil && v.ty.under.Interface?) then Some(v) else None
  }

  /** Why a run stopped. */
  datatype Stop = Finished | Failed(err: Val) | Aborted | Crashed

  /** The calls made, each with its arguments as the function saw them. */
  datatype Trace = Trace(calls: seq<seq<Val>>, stop: Stop)

  /** The pipeline functions are accepted by the checks. */
  predicate Accepted(fs: seq<Fn>) {
    forall i: nat | i < |fs| :: AcceptedAt(fs, i)
  }

  predicate AcceptedAt(fs: seq<Fn>, i: nat) {
    i + 1 < |fs| ==> TransOf(fs[i], fs[i + 1]).Some?
  }

  function NextInput(fs: seq<Fn>, i: nat, outs: seq<Val>): seq<Val>
    requires i < |fs|
  {
    if i + 1 < |fs| && TransOf(fs[i], fs[i + 1]).Some?
    then ApplyTrans(TransOf(fs[i], fs[i + 1]).value, outs)
    else []
  }

  /** run, from function `i` on with `input`. */
  function RunFrom(fs: seq<Fn>, i: nat, input: seq<Val>): Trace
    requires i <= |fs|
    decreases |fs| - i
  {
    if i == |fs| then Trace([], Finished)
    else if !Accepts(fs[i].ins, input) then Trace([], Crashed)
    else
      var args := Converted(fs[i].ins, input);
      match fs[i].run(args)
      case Panicked => Trace([args], Crashed)
      case Returned(outs, aborted) =>
        if PickErr(outs).Some? then Trace([args], Failed(PickErr(outs).value))
        else if aborted then Trace([args], Aborted)
        else
          var rest := RunFrom(fs, i + 1, NextInput(fs, i, outs));
          Trace([args] + rest.calls, rest.stop)
  }

  /** The first function's input: the run's arguments, and the abort function if one more is wanted. */
  function FirstInput(fs: seq<Fn>, args: seq<Val>): seq<Val> {
    if fs != [] && NeedsAbort(seq(|args|, k requires 0 <= k < |args| => args[k].ty), fs[0].ins)
    then args + [AbortVal(FUNC)]
    else args
  }

  function RunAll(fs: seq<Fn>, args: seq<Val>): Trace {
    RunFrom(fs, 0, FirstInput(fs, args))
  }

  /** A call went through: it returned, without an error and without aborting. */
  predicate Passed(f: Fn, args: seq<Val>) {
    f.run(args).Returned? && PickErr(f.run(args).outs).None? && !f.run(args).aborted
  }

  /** Which stop the last call `args` of `f` makes. */
  predicate StopsWith(f: Fn, args: seq<Val>, stop: Stop) {
    match stop
    case Finished => Passed(f, args)
    case Failed(e) => f.run(args).Returned? && PickErr(f.run(args).outs) == Some(e)
    case Aborted => f.run(args).Returned? && PickErr(f.run(args).outs).None? && f.run(args).aborted
    case Crashed => f.run(args).Panicked?
  }

  /** A good place in a pipeline: the checks accepted it and `input` suits function `i`. */
  ghost predicate Suits(fs: seq<Fn>, i: nat, input: seq<Val>) {
    && i < |fs| && Accepted(fs) && Accepts(fs[i].ins, input)
    && forall f | f in fs :: WellTyped(f)
  }

  /** The last call of a run from `i`, with the stop it makes. */
  ghost predicate EndsHere(fs: seq<Fn>, i: nat, args: seq<Val>, t: Trace)
    requires i < |fs|
  {
    && t.calls == [args] && StopsWith(fs[i], args, t.stop)
    && (t.stop.Finished? ==> i + 1 == |fs|)
  }

  /** One step of a run: it makes one typed call, and either ends with it or goes on with an input that
      suits the next function. */
  lemma RunStep(fs: seq<Fn>, i: nat, input: seq<Val>) returns (args: seq<Val>, goesOn: bool, next: seq<Val>)
    requires Suits(fs, i, input)
    ensures args == Converted(fs[i].ins, input)
    ensures !goesOn ==> EndsHere(fs, i, args, RunFrom(fs, i, input))
    ensures goesOn ==>
      && AcceptedAt(fs, i) && Passed(fs[i], args) && Suits(fs, i + 1, next)
      && next == ApplyTrans(TransOf(fs[i], fs[i + 1]).value, fs[i].run(args).outs)
      && RunFrom(fs, i, input) == Trace([args] + RunFrom(fs, i + 1, next).calls, RunFrom(fs, i + 1, next).stop)
  {
    args := Converted(fs[i].ins, input);
    assert fs[i] in fs;
    next := [];
    goesOn := Passed(fs[i], args) && i + 1 < |fs|;
    assert AcceptedAt(fs, i);
    if goesOn {
      next := NextInput(fs, i, fs[i].run(args).outs);
      TransFits(fs[i], fs[i + 1], fs[i].run(args).outs);
    }
  }

  /** Types: call `k` of a run from `i` is made with the number and the types of arguments that its
      function declares. */
  ghost predicate CallTyped(fs: seq<Fn>, i: nat, calls: seq<seq<Val>>, k: nat) {
    k < |calls| ==> i + k < |fs| && HasTypes(calls[k], fs[i + k].ins)
  }

  /** Control and data flow between two calls: the first went through, and the second got its outputs
      through their transformation. */
  ghost predicate Linked(f: Fn, g: Fn, args: seq<Val>, args': seq<Val>) {
    && Passed(f, args) && TransOf(f, g).Some?
    && (var next := ApplyTrans(TransOf(f, g).value, f.run(args).outs);
        Accepts(g.ins, next) && args' == Converted(g.ins, next))
  }

  ghost predicate CallLinked(fs: seq<Fn>, i: nat, calls: seq<seq<Val>>, k: nat) {
    k + 1 < |calls| ==> i + k + 1 < |fs| && Linked(fs[i + k], fs[i + k + 1], calls[k], calls[k + 1])
  }

  /** The run stops with its last call, by that call's doing, and finishes only with the last function. */
  ghost predicate EndsWell(fs: seq<Fn>, i: nat, t: Trace) {
    && 1 <= |t.calls| <= |fs| - i
    && StopsWith(fs[i + |t.calls| - 1], t.calls[|t.calls| - 1], t.stop)
    && (t.stop.Finished? ==> |t.calls| == |fs| - i)
  }

  ghost predicate IsOrderly(fs: seq<Fn>, i: nat, t: Trace) {
    && (forall k: nat :: CallTyped(fs, i, t.calls, k))
    && (forall k: nat :: CallLinked(fs, i, t.calls, k))
    && EndsWell(fs, i, t)
  }

  lemma TypedCons(fs: seq<Fn>, i: nat, args: seq<Val>, calls: seq<seq<Val>>, k: nat)
    requires i < |fs| && HasTypes(args, fs[i].ins) && (k > 0 ==> CallTyped(fs, i + 1, calls, k - 1))
    ensures CallTyped(fs, i, [args] + calls, k)
  {
    if 0 < k <= |calls| {
      assert ([args] + calls)[k] == calls[k - 1] && i + k == i + 1 + (k - 1);
    }
  }

  lemma LinkedCons(fs: seq<Fn>, i: nat, args: seq<Val>, calls: seq<seq<Val>>, k: nat)
    requires i + 1 < |fs| && calls != [] && Linked(fs[i], fs[i + 1], args, calls[0])
    requires k > 0 ==> CallLinked(fs, i + 1, calls, k - 1)
    ensures CallLinked(fs, i, [args] + calls, k)
  {
    var all := [args] + calls;
    if 0 < k < |calls| {
      assert all[k] == calls[k - 1] && all[k + 1] == calls[k];
      assert i + k == i + 1 + (k - 1) && i + k + 1 == i + 1 + (k - 1) + 1;
    }
  }

  lemma OrderlyCons(fs: seq<Fn>, i: nat, args: seq<Val>, rest: Trace)
    requires i + 1 < |fs| && HasTypes(args, fs[i].ins) && IsOrderly(fs, i + 1, rest)
    requires Linked(fs[i], fs[i + 1], args, rest.calls[0])
    ensures IsOrderly(fs, i, Trace([args] + rest.calls, rest.stop))
  {
    forall k: nat ensures CallTyped(fs, i, [args] + rest.calls, k) {
      TypedCons(fs, i, args, rest.calls, k);
    }
    forall k: nat ensures CallLinked(fs, i, [args] + rest.calls, k) {
      LinkedCons(fs, i, args, rest.calls, k);
    }
  }

  /** The run of an accepted pipeline of well-typed functions, whose first arguments fit, is orderly. */
  lemma {:induction false} RunIsOrderly(fs: seq<Fn>, i: nat, input: seq<Val>) returns (t: Trace)
    requires Suits(fs, i, input)
    ensures t == RunFrom(fs, i, input) && IsOrderly(fs, i, t)
    ensures t.calls[0] == Converted(fs[i].ins, input)
    decreases |fs| - i
  {
    var args, goesOn, next := RunStep(fs, i, input);
    if goesOn {
      var rest := RunIsOrderly(fs, i + 1, next);
      OrderlyCons(fs, i, args, rest);
      t := Trace([args] + rest.calls, rest.stop);
    } else {
      t := RunFrom(fs, i, input);
    }
  }

  /** The whole run: orderly, or no call at all when the run's arguments do not fit the first function. */
  lemma RunAllIsOrderly(fs: seq<Fn>, args: seq<Val>)
    requires fs != [] && Accepted(fs) && forall f | f in fs :: WellTyped(f)
    ensures
      var t := RunAll(fs, args);
      if Accepts(fs[0].ins, FirstInput(fs, args))
      then IsOrderly(fs, 0, t) && t.calls[0] == Converted(fs[0].ins, FirstInput(fs, args))
      else t == Trace([], Crashed)
  {
    if Accepts(fs[0].ins, FirstInput(fs, args)) {
      var t := RunIsOrderly(fs, 0, FirstInput(fs, args));
    }
  }

  // ----- Case and IfThen in a run ----------------------------------------------------------------

  /** In a run, the function inside a Case or IfThen is called with what it declares. */
  lemma InnerCallTyped(fs: seq<Fn>, i: nat, t: Trace, k: nat, cond: bool, f: Fn)
    requires i < |fs| && IsOrderly(fs, i, t) && k < |t.calls| && IsConditionFn(f)
    requires i + k < |fs| && (fs[i + k] == CaseFn(cond, f) || fs[i + k] == IfThenFn(cond, f))
    ensures t.calls[k] != [] && HasTypes(InnerArgs(f, t.calls[k]), f.ins)
  {
    assert CallTyped(fs, i, t.calls, k);
    WrappedTypes(f, t.calls[k]);
  }

  /** A Case or IfThen whose condition fails passes its input on unchanged, and does not stop the run. */
  lemma SkippedPassesInput(f: Fn, args: seq<Val>)
    requires HasTypes(args, WrappedIns(f)) && args != []
    ensures IfThenFn(false, f).run(args) == CaseFn(false, f).run(args) == Returned(args[..|args| - 1], false)
  {
  }

  /** The wrapped function itself lets the run go on. */
  predicate InnerPassed(f: Fn, args: seq<Val>)
    requires args != []
  {
    Inner(f, args).Returned? && PickErr(Inner(f, args).outs).None? && !Inner(f, args).aborted
  }

  /** A Case whose condition holds lets the run go on exactly if its function does and calling its last
      argument neither aborts nor panics. */
  lemma CasePasses(f: Fn, args: seq<Val>)
    requires args != []
    ensures Passed(CaseFn(true, f), args) <==> InnerPassed(f, args) && Calling(args[|args| - 1]).Inert?
  {
  }

  /** What a function returned, without its error. */
  function Stripped(prev: Fn, vals: seq<Val>): seq<Val> {
    if LastIs(prev.outs, IsErrType) && vals != [] then vals[..|vals| - 1] else vals
  }

  /** What calling the last argument of a Case does, after `prev` returned `vals`: the argument is the
      runner's abort function where `prev` leaves it to the runner, and what `prev` returned otherwise. */
  function LastEffect(prev: Fn, f: Fn, vals: seq<Val>): Effect {
    var own := Stripped(prev, vals);
    if NeedsAbort(OutArgs(prev), WrappedIns(f)) || own == [] then Aborts else Calling(own[|own| - 1])
  }

  lemma StrippedIs(prev: Fn, vals: seq<Val>)
    requires |vals| == |prev.outs|
    ensures |OutArgs(prev)| <= |vals| && Stripped(prev, vals) == vals[..|OutArgs(prev)|]
  {
  }

  /** What the transformation makes of the outputs. */
  lemma AppliedIs(prev: Fn, f: Fn, vals: seq<Val>)
    requires |vals| == |prev.outs| && TransOf(prev, CaseFn(true, f)).Some?
    ensures
      var own := Stripped(prev, vals);
      ApplyTrans(TransOf(prev, CaseFn(true, f)).value, vals)
        == if NeedsAbort(OutArgs(prev), WrappedIns(f)) then own + [AbortVal(FUNC)] else own
  {
  }

  lemma LastConverted(ins: seq<Ty>, args: seq<Val>)
    requires |args| == |ins| > 0 && !ins[|ins| - 1].under.Interface?
    ensures Calling(Converted(ins, args)[|ins| - 1]) == Calling(args[|ins| - 1])
  {
  }

  /** What a Case after `prev` gets. */
  lemma CaseInput(prev: Fn, f: Fn, vals: seq<Val>)
    requires HasTypes(vals, prev.outs) && TransOf(prev, CaseFn(true, f)).Some?
    ensures
      var input := ApplyTrans(TransOf(prev, CaseFn(true, f)).value, vals);
      Accepts(WrappedIns(f), input) &&
      var args := Converted(WrappedIns(f), input);
      args != [] && Calling(args[|args| - 1]) == LastEffect(prev, f, vals)
  {
    TransFits(prev, CaseFn(true, f), vals);
    LastOfWrapped(f);
    AppliedIs(prev, f, vals);
    LastConverted(WrappedIns(f), ApplyTrans(TransOf(prev, CaseFn(true, f)).value, vals));
  }

  lemma LastOfWrapped(f: Fn)
    ensures WrappedIns(f) != [] && IsAbortFnType(WrappedIns(f)[|WrappedIns(f)| - 1])
  {
  }

  /** Inside an accepted pipeline a Case whose condition holds lets the run go on exactly when its function
      does, and the function before it returned something for the last parameter whose call neither aborts
      nor panics. */
  lemma CaseAfter(prev: Fn, f: Fn, vals: seq<Val>)
    requires HasTypes(vals, prev.outs) && TransOf(prev, CaseFn(true, f)).Some?
    ensures
      var input := ApplyTrans(TransOf(prev, CaseFn(true, f)).value, vals);
      Accepts(WrappedIns(f), input) &&
      var args := Converted(WrappedIns(f), input);
      args != [] && (Passed(CaseFn(true, f), args) <==> InnerPassed(f, args) && LastEffect(prev, f, vals).Inert?)
  {
    CaseInput(prev, f, vals);
    CasePasses(f, Converted(WrappedIns(f), ApplyTrans(TransOf(prev, CaseFn(true, f)).value, vals)));
  }

  /** What a caller can check beforehand: a hit Case always stops the run if and only if the function before
      it leaves the last parameter to the runner, which its signature says. */
  lemma CaseGuard(prev: Fn, f: Fn)
    requires TransOf(prev, CaseFn(true, f)).Some?
    ensures NeedsAbort(OutArgs(prev), WrappedIns(f))
       <==> forall vals | HasTypes(vals, prev.outs) :: !LastEffect(prev, f, vals).Inert?
  {
    if !NeedsAbort(OutArgs(prev), WrappedIns(f)) {
      var vals := InertLast(prev, f);
    }
  }

  /** An accepted Case that does not leave its last parameter to the runner gets it from `prev`. */
  lemma OwnLast(prev: Fn, f: Fn)
    requires TransOf(prev, CaseFn(true, f)).Some? && !NeedsAbort(OutArgs(prev), WrappedIns(f))
    ensures OutArgs(prev) == WrappedIns(f) && OutArgs(prev) != []
  {
    LastOfWrapped(f);
  }

  function InertVals(tys: seq<Ty>): (vals: seq<Val>)
    ensures HasTypes(vals, tys) && forall k: nat | k < |vals| :: Calling(vals[k]).Inert?
  {
    if tys == [] then [] else InertVals(tys[..|tys| - 1]) + [Data(tys[|tys| - 1], false, 0, Inert)]
  }

  lemma InertLast(prev: Fn, f: Fn) returns (vals: seq<Val>)
    requires TransOf(prev, CaseFn(true, f)).Some? && !NeedsAbort(OutArgs(prev), WrappedIns(f))
    ensures HasTypes(vals, prev.outs) && LastEffect(prev, f, vals).Inert?
  {
    OwnLast(prev, f);
    vals := InertVals(prev.outs);
    StrippedIs(prev, vals);
  }

  /** Otherwise what the previous function returned decides.  An inert function lets the run go on although
      the condition holds, one that calls the abort function in turn stops it, and a nil one panics. */
  lemma CaseMayNotStop(isNil: bool, e: Effect)
    ensures
      var v := Data(FUNC, isNil, 7, e);
      var prev := Fn([], [FUNC], args => Returned([v], false));
      var f := Fn([FUNC], [], args => Returned([], false));
      && WellTyped(prev) && WellTyped(f) && IsConditionFn(f)
      && TransOf(prev, CaseFn(true, f)) == Some(Trans(false, false))
      && CaseFn(true, f).run(Converted(WrappedIns(f), ApplyTrans(Trans(false, false), [v])))
         == (if isNil || e.Panics? then Panicked else Returned([], e.Aborts?))
  {
    var v := Data(FUNC, isNil, 7, e);
    assert Converted([FUNC], [v]) == [v];
  }
}
