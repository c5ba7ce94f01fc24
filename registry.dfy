/**
 * The router's two registries (listeners by event name, actions by name),
 * the filters over them, and the sequence of callback calls that one
 * dispatch produces.
 */
module Registry {
  import opened Wrappers

  /** A handler is the router's own dispatch step or an opaque callback named by an id. */
  datatype Handler = RunRouter | Callback(id: nat)

  /** An entry of `listeners`: `{ event, handler }`. */
  datatype Listener = Listener(event: string, handler: Handler)

  /** An entry of `actions`: `{ name, handler }`; action handlers are callbacks. */
  datatype Action = Action(name: string, handler: nat)

  /** The `event` argument of `on`: one string, or an array of strings. */
  datatype EventArg = Name(name: string) | Names(names: seq<string>)

  /** A value passed to a callback. */
  datatype Arg = Text(text: string) | Undefined | RouterSelf

  /** One call of a callback, with its arguments. */
  datatype Call = Call(callback: nat, args: seq<Arg>)

  /**
   * The events `on` registers: a string goes through `split()` with no
   * separator, which gives that one string; an array is used as it is.
   */
  function EventNames(events: EventArg): (names: seq<string>)
    ensures events.Name? ==> |names| == 1 && names[0] == events.name
    ensures events.Names? ==> names == events.names
  {
    match events
    case Name(n) => [n]
    case Names(ns) => ns
  }

  /**
   * The events the router's own dispatch step may listen to: any but
   * `match`, which `_run` fires itself, so that a dispatch step listening
   * to it would run again without end.
   */
  predicate RunnerMayListen(e: string) {
    e != "match"
  }

  /** The dispatch step never listens to `match`. */
  predicate RunnerOffMatch(ls: seq<Listener>) {
    forall i :: 0 <= i < |ls| && ls[i].handler.RunRouter? ==> RunnerMayListen(ls[i].event)
  }

  function ArgOf(v: Option<string>): Arg {
    match v
    case None => Undefined
    case Some(s) => Text(s)
  }

  /** The arguments of a dispatch: `(value, action)`. */
  function DispatchArgs(action: Option<string>, value: Option<string>): seq<Arg> {
    [ArgOf(value), ArgOf(action)]
  }

  /** The listeners `on` appends: one per event name, in order, all with `handler`. */
  function ListenersFor(names: seq<string>, handler: Handler): (ls: seq<Listener>)
    ensures |ls| == |names|
  {
    if names == [] then []
    else ListenersFor(names[..|names| - 1], handler) + [Listener(names[|names| - 1], handler)]
  }

  /** `matches`: the actions whose name is the current action, in insertion order. */
  function Matches(actions: seq<Action>, current: Option<string>): (ms: seq<Action>)
    ensures |ms| <= |actions|
    ensures current.None? ==> ms == []
  {
    if actions == [] then []
    else
      var last := actions[|actions| - 1];
      Matches(actions[..|actions| - 1], current) + (if current == Some(last.name) then [last] else [])
  }

  /** The handlers of the listeners registered for `e`, in registration order. */
  function Targets(ls: seq<Listener>, e: string): (hs: seq<Handler>)
  {
    if ls == [] then []
    else
      var last := ls[|ls| - 1];
      Targets(ls[..|ls| - 1], e) + (if last.event == e then [last.handler] else [])
  }

  /** The calls one handler makes: a callback is called with `args`, the dispatch step does `run`. */
  function CallsOf(h: Handler, args: seq<Arg>, run: seq<Call>): seq<Call> {
    match h
    case RunRouter => run
    case Callback(id) => [Call(id, args)]
  }

  /** The calls made by invoking `hs` in order. */
  function ListenerCalls(hs: seq<Handler>, args: seq<Arg>, run: seq<Call>): seq<Call> {
    if hs == [] then []
    else ListenerCalls(hs[..|hs| - 1], args, run) + CallsOf(hs[|hs| - 1], args, run)
  }

  /** The calls made by invoking the handlers of `ms` in order, each with `args`. */
  function HandlerCalls(ms: seq<Action>, args: seq<Arg>): seq<Call> {
    if ms == [] then []
    else HandlerCalls(ms[..|ms| - 1], args) + [Call(ms[|ms| - 1].handler, args)]
  }

  /**
   * The calls of one `_run` once the anchor parses to `action` and `value`:
   * the `match` listeners if anything matches, then every matched handler.
   */
  function RunTrace(ls: seq<Listener>, actions: seq<Action>, action: Option<string>, value: Option<string>): (t: seq<Call>)
  {
    var ms := Matches(actions, action);
    var args := DispatchArgs(action, value);
    (if ms == [] then [] else ListenerCalls(Targets(ls, "match"), args, [])) + HandlerCalls(ms, args)
  }

  /** The calls of `_trigger(e, params)`: each listener for `e` in order; the dispatch step runs. */
  function TriggerTrace(ls: seq<Listener>, actions: seq<Action>, action: Option<string>, value: Option<string>,
                        e: string, params: seq<Arg>): (t: seq<Call>)
    ensures Targets(ls, e) == [] ==> t == []
    ensures RunRouter !in Targets(ls, e) ==> |t| == |Targets(ls, e)|
  {
    CallbackCount(Targets(ls, e), params, RunTrace(ls, actions, action, value));
    ListenerCalls(Targets(ls, e), params, RunTrace(ls, actions, action, value))
  }

  /** Without the dispatch step among them, the handlers make one call each. */
  lemma CallbackCount(hs: seq<Handler>, args: seq<Arg>, run: seq<Call>)
    ensures RunRouter !in hs ==> |ListenerCalls(hs, args, run)| == |hs|
  {
    if RunRouter !in hs {
      CallbackCalls(hs, args, run);
    }
  }

  /** The listener a previously installed `onhashchange` callback becomes, if there is one. */
  function Chained(prior: Option<nat>): seq<Listener> {
    if prior.Some? then [Listener("hashchange", Callback(prior.value))] else []
  }

  /** The listeners of a router right after construction. */
  function StartupListeners(prior: Option<nat>): (ls: seq<Listener>)
    ensures RunnerOffMatch(ls)
    ensures Listener("ready", RunRouter) in ls && Listener("hashchange", RunRouter) in ls
    ensures prior.Some? ==> Listener("hashchange", Callback(prior.value)) in ls
    ensures |ls| == if prior.Some? then 3 else 2
  {
    [Listener("ready", RunRouter), Listener("hashchange", RunRouter)] + Chained(prior)
  }

  // ---------------------------------------------------------------- lemmas

  /** A listener that keeps the dispatch step off `match` keeps the whole list so. */
  lemma RunnerOffMatchSnoc(ls: seq<Listener>, l: Listener)
    requires RunnerOffMatch(ls)
    requires l.handler.RunRouter? ==> RunnerMayListen(l.event)
    ensures RunnerOffMatch(ls + [l])
  {
    forall i | 0 <= i < |ls + [l]| && (ls + [l])[i].handler.RunRouter?
      ensures RunnerMayListen((ls + [l])[i].event)
    {
      if i < |ls| {
        assert (ls + [l])[i] == ls[i];
      }
    }
  }

  /** At startup the dispatch step is the only `ready` listener and listens to `hashchange` too. */
  lemma StartupFacts(prior: Option<nat>)
    ensures RunnerOffMatch(StartupListeners(prior))
    ensures Targets(StartupListeners(prior), "ready") == [RunRouter]
    ensures Listener("ready", RunRouter) in StartupListeners(prior)
    ensures Listener("hashchange", RunRouter) in StartupListeners(prior)
  {
    var own := [Listener("ready", RunRouter), Listener("hashchange", RunRouter)];
    TargetsAppend(own, Chained(prior), "ready");
    assert own[..1] == [Listener("ready", RunRouter)];
    assert Targets(own[..1], "ready") == [RunRouter];
    assert Targets(own, "ready") == [RunRouter];
    assert StartupListeners(prior)[0] == Listener("ready", RunRouter);
    assert StartupListeners(prior)[1] == Listener("hashchange", RunRouter);
  }

  /** Firing `ready` at startup, before any action exists, calls nothing. */
  lemma ReadyTrace(ls: seq<Listener>, action: Option<string>, value: Option<string>)
    requires Targets(ls, "ready") == [RunRouter]
    ensures TriggerTrace(ls, [], action, value, "ready", [RouterSelf]) == []
  {
    RunTraceNoActions(ls, action, value);
    assert [RunRouter][..0] == [];
  }

  /** `on` appends one listener per name, in the order of the names, each with the handler. */
  lemma {:induction false} ListenersForAt(names: seq<string>, handler: Handler)
    ensures |ListenersFor(names, handler)| == |names|
    ensures forall k :: 0 <= k < |names| ==> ListenersFor(names, handler)[k] == Listener(names[k], handler)
  {
    if names != [] {
      ListenersForAt(names[..|names| - 1], handler);
    }
  }

  /** The matches are actions of `actions` carrying the current name; an undefined action matches nothing. */
  lemma {:induction false} MatchesSound(actions: seq<Action>, current: Option<string>)
    ensures |Matches(actions, current)| <= |actions|
    ensures forall k :: 0 <= k < |Matches(actions, current)| ==>
              current == Some(Matches(actions, current)[k].name) && Matches(actions, current)[k] in actions
    ensures current.None? ==> Matches(actions, current) == []
  {
    if actions != [] {
      var init := actions[..|actions| - 1];
      MatchesSound(init, current);
      assert forall a :: a in init ==> a in actions;
    }
  }

  /** One call per matched handler, in order, each with `args`. */
  lemma {:induction false} HandlerCallsAt(ms: seq<Action>, args: seq<Arg>)
    ensures |HandlerCalls(ms, args)| == |ms|
    ensures forall k :: 0 <= k < |ms| ==> HandlerCalls(ms, args)[k] == Call(ms[k].handler, args)
  {
    if ms != [] {
      HandlerCallsAt(ms[..|ms| - 1], args);
    }
  }

  /** Matching distributes over concatenation: order is that of insertion. */
  lemma {:induction false} MatchesAppend(a: seq<Action>, b: seq<Action>, current: Option<string>)
    ensures Matches(a + b, current) == Matches(a, current) + Matches(b, current)
    decreases |b|
  {
    if b == [] {
      assert a + b == a;
    } else {
      var init := b[..|b| - 1];
      assert (a + b)[..|a + b| - 1] == a + init;
      MatchesAppend(a, init, current);
    }
  }

  /** Each action occurs in the matches as often as in `actions` if its name is current, else never. */
  lemma {:induction false} MatchesCount(actions: seq<Action>, current: Option<string>, x: Action)
    ensures multiset(Matches(actions, current))[x] ==
            if current == Some(x.name) then multiset(actions)[x] else 0
  {
    if actions != [] {
      var init := actions[..|actions| - 1];
      assert actions == init + [actions[|actions| - 1]];
      MatchesCount(init, current, x);
    }
  }

  /** Nothing matches exactly when no action carries the current name. */
  lemma {:induction false} MatchesEmpty(actions: seq<Action>, current: Option<string>)
    ensures Matches(actions, current) == [] <==>
            forall i :: 0 <= i < |actions| ==> current != Some(actions[i].name)
  {
    if actions != [] {
      var init := actions[..|actions| - 1];
      MatchesEmpty(init, current);
      assert forall i :: 0 <= i < |init| ==> init[i] == actions[i];
    }
  }

  /** Targets distribute over concatenation. */
  lemma {:induction false} TargetsAppend(a: seq<Listener>, b: seq<Listener>, e: string)
    ensures Targets(a + b, e) == Targets(a, e) + Targets(b, e)
    decreases |b|
  {
    if b == [] {
      assert a + b == a;
    } else {
      var init := b[..|b| - 1];
      assert (a + b)[..|a + b| - 1] == a + init;
      TargetsAppend(a, init, e);
    }
  }

  /** A handler is a target of `e` exactly when some listener pairs it with `e`. */
  lemma {:induction false} TargetsMembers(ls: seq<Listener>, e: string, h: Handler)
    ensures h in Targets(ls, e) <==> exists i :: 0 <= i < |ls| && ls[i] == Listener(e, h)
  {
    if ls != [] {
      var init := ls[..|ls| - 1];
      TargetsMembers(init, e, h);
      assert forall i :: 0 <= i < |init| ==> init[i] == ls[i];
    }
  }

  /** With no listener for `e`, there are no targets. */
  lemma {:induction false} TargetsNone(ls: seq<Listener>, e: string)
    requires forall i :: 0 <= i < |ls| ==> ls[i].event != e
    ensures Targets(ls, e) == []
  {
    if ls != [] {
      TargetsNone(ls[..|ls| - 1], e);
    }
  }

  /** The dispatch step is never a `match` listener. */
  lemma RunnerNeverMatch(ls: seq<Listener>)
    requires RunnerOffMatch(ls)
    ensures RunRouter !in Targets(ls, "match")
  {
    TargetsMembers(ls, "match", RunRouter);
  }

  /** Invoking callbacks only: one call per handler, in order, each with `args`. */
  lemma {:induction false} CallbackCalls(hs: seq<Handler>, args: seq<Arg>, run: seq<Call>)
    requires RunRouter !in hs
    ensures |ListenerCalls(hs, args, run)| == |hs|
    ensures forall k :: 0 <= k < |hs| ==> ListenerCalls(hs, args, run)[k] == Call(hs[k].id, args)
  {
    if hs != [] {
      var init := hs[..|hs| - 1];
      assert RunRouter !in init by {
        assert forall k :: 0 <= k < |init| ==> init[k] == hs[k];
      }
      assert hs[|hs| - 1] != RunRouter;
      CallbackCalls(init, args, run);
    }
  }

  /** Appending calls to a trace is associative. */
  lemma AppendCalls(t: seq<Call>, a: seq<Call>, b: seq<Call>)
    ensures t + a + b == t + (a + b)
  {
  }

  /** One more listener adds its handler to the targets when its event is `e`. */
  lemma TargetsSnoc(ls: seq<Listener>, i: int, e: string)
    requires 0 <= i < |ls|
    ensures Targets(ls[..i + 1], e) == Targets(ls[..i], e) + (if ls[i].event == e then [ls[i].handler] else [])
  {
    assert ls[..i + 1][..i] == ls[..i];
  }

  /** Invoking one more handler appends its calls. */
  lemma ListenerCallsSnoc(hs: seq<Handler>, h: Handler, args: seq<Arg>, run: seq<Call>)
    ensures ListenerCalls(hs + [h], args, run) == ListenerCalls(hs, args, run) + CallsOf(h, args, run)
  {
    assert (hs + [h])[..|hs|] == hs;
  }

  /** Invoking `a` and then `b` makes the calls of `a` followed by those of `b`. */
  lemma {:induction false} ListenerCallsAppend(a: seq<Handler>, b: seq<Handler>, args: seq<Arg>, run: seq<Call>)
    ensures ListenerCalls(a + b, args, run) == ListenerCalls(a, args, run) + ListenerCalls(b, args, run)
    decreases |b|
  {
    if b == [] {
      assert a + b == a;
    } else {
      var init := b[..|b| - 1];
      assert a + b == (a + init) + [b[|b| - 1]];
      ListenerCallsSnoc(a + init, b[|b| - 1], args, run);
      ListenerCallsAppend(a, init, args, run);
      AppendCalls(ListenerCalls(a, args, run), ListenerCalls(init, args, run), CallsOf(b[|b| - 1], args, run));
    }
  }

  /**
   * A `hashchange` on a freshly constructed router: the dispatch step runs
   * first, then the `onhashchange` callback installed before the router, if any.
   */
  lemma HashChangeTrace(prior: Option<nat>, actions: seq<Action>, action: Option<string>, value: Option<string>,
                        params: seq<Arg>)
    ensures TriggerTrace(StartupListeners(prior), actions, action, value, "hashchange", params) ==
            RunTrace(StartupListeners(prior), actions, action, value) +
            (if prior.Some? then [Call(prior.value, params)] else [])
  {
    var ls := StartupListeners(prior);
    var own := [Listener("ready", RunRouter), Listener("hashchange", RunRouter)];
    var run := RunTrace(ls, actions, action, value);
    assert own[..1][..0] == [];
    assert own[..1] == [Listener("ready", RunRouter)];
    assert Targets(own[..1], "hashchange") == [];
    assert Targets(own, "hashchange") == [RunRouter];
    TargetsAppend(own, Chained(prior), "hashchange");
    var chained := Targets(Chained(prior), "hashchange");
    if prior.Some? {
      assert Chained(prior)[..0] == [];
      assert chained == [Callback(prior.value)];
    }
    ListenerCallsAppend([RunRouter], chained, params, run);
    assert [RunRouter][..0] == [];
    assert ListenerCalls([RunRouter], params, run) == run;
    if prior.Some? {
      assert [Callback(prior.value)][..0] == [];
      assert ListenerCalls(chained, params, run) == [Call(prior.value, params)];
    }
  }

  /** What the dispatch step would do does not matter when it is not among the handlers. */
  lemma {:induction false} ListenerCallsIgnoreRun(hs: seq<Handler>, args: seq<Arg>, run1: seq<Call>, run2: seq<Call>)
    requires RunRouter !in hs
    ensures ListenerCalls(hs, args, run1) == ListenerCalls(hs, args, run2)
  {
    if hs != [] {
      var init := hs[..|hs| - 1];
      assert RunRouter !in init by {
        assert forall k :: 0 <= k < |init| ==> init[k] == hs[k];
      }
      ListenerCallsIgnoreRun(init, args, run1, run2);
    }
  }

  /** The `match` event fired inside a dispatch calls only callbacks: the dispatch step is not among them. */
  lemma MatchPhase(ls: seq<Listener>, actions: seq<Action>, action: Option<string>, value: Option<string>)
    requires RunnerOffMatch(ls)
    ensures TriggerTrace(ls, actions, action, value, "match", DispatchArgs(action, value)) ==
            ListenerCalls(Targets(ls, "match"), DispatchArgs(action, value), [])
  {
    RunnerNeverMatch(ls);
    ListenerCallsIgnoreRun(Targets(ls, "match"), DispatchArgs(action, value), RunTrace(ls, actions, action, value), []);
  }

  /** With no actions registered, a dispatch calls nothing. */
  lemma RunTraceNoActions(ls: seq<Listener>, action: Option<string>, value: Option<string>)
    ensures RunTrace(ls, [], action, value) == []
  {
    assert Matches([], action) == [];
  }

  /**
   * One dispatch: if nothing matches, no call at all; otherwise first one call
   * per `match` listener, then one call per matched handler in insertion
   * order, all with `(value, action)`.
   */
  lemma RunTraceOrder(ls: seq<Listener>, actions: seq<Action>, action: Option<string>, value: Option<string>)
    requires RunnerOffMatch(ls)
    ensures var ms := Matches(actions, action);
            var ts := Targets(ls, "match");
            var args := DispatchArgs(action, value);
            var t := RunTrace(ls, actions, action, value);
            var n := if ms == [] then 0 else |ts|;
            && (ms == [] ==> t == [])
            && |t| == n + |ms|
            && (forall k :: 0 <= k < n ==> ts[k].Callback? && t[k] == Call(ts[k].id, args))
            && (forall k :: 0 <= k < |ms| ==> t[n + k] == Call(ms[k].handler, args))
  {
    RunnerNeverMatch(ls);
    CallbackCalls(Targets(ls, "match"), DispatchArgs(action, value), []);
    HandlerCallsAt(Matches(actions, action), DispatchArgs(action, value));
  }

  /** A dispatch calls something exactly when some action matches the current action. */
  lemma RunTraceEmpty(ls: seq<Listener>, actions: seq<Action>, action: Option<string>, value: Option<string>)
    ensures RunTrace(ls, actions, action, value) == [] <==> Matches(actions, action) == []
  {
    var ms := Matches(actions, action);
    if ms != [] {
      assert HandlerCalls(ms, DispatchArgs(action, value)) != [];
    }
  }

  /** `_trigger` with no dispatch step among the targets calls exactly the targets, in order, with `params`. */
  lemma TriggerTraceExact(ls: seq<Listener>, actions: seq<Action>, action: Option<string>, value: Option<string>,
                          e: string, params: seq<Arg>)
    requires RunRouter !in Targets(ls, e)
    ensures var ts := Targets(ls, e);
            var t := TriggerTrace(ls, actions, action, value, e, params);
            |t| == |ts| && forall k :: 0 <= k < |ts| ==> t[k] == Call(ts[k].id, params)
  {
    CallbackCalls(Targets(ls, e), params, RunTrace(ls, actions, action, value));
  }

  /** `_trigger` of an event nobody listens to calls nothing. */
  lemma TriggerTraceSilent(ls: seq<Listener>, actions: seq<Action>, action: Option<string>, value: Option<string>,
                           e: string, params: seq<Arg>)
    requires forall i :: 0 <= i < |ls| ==> ls[i].event != e
    ensures TriggerTrace(ls, actions, action, value, e, params) == []
  {
    TargetsNone(ls, e);
  }
}
