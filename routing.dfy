/**
 * The router object: its fields, and the methods that register listeners
 * and actions, fire events, and dispatch the current anchor.
 */
module Routing {
  import opened Wrappers
  import opened JsString
  import opened Hook
  import opened Registry

  class Grapnel {
    /** The separator between action and value; never changes after construction. */
    var hook: string
    /** The environment: what the browser reports as `location.hash`. */
    var hash: string
    /** The last parsed action and value. */
    var action: Option<string>
    var value: Option<string>
    /** The registries, in insertion order. */
    var actions: seq<Action>
    var listeners: seq<Listener>
    /** Every callback call made so far, in order. */
    ghost var trace: seq<Call>

    /** What holds of the fields from the first registration on. */
    ghost predicate Wellformed()
      reads this`hook, this`hash, this`listeners
    {
      hook != "" && IsLiteralPattern(hook) && IsLocationHash(hash) && RunnerOffMatch(listeners)
    }

    /** A constructed router: the dispatch step listens to `ready` and `hashchange`. */
    ghost predicate Valid()
      reads this`hook, this`hash, this`listeners
    {
      Wellformed() &&
      Listener("ready", RunRouter) in listeners &&
      Listener("hashchange", RunRouter) in listeners
    }

    /** `getAnchor()`. */
    function Anchor(): (a: string)
      reads this`hook, this`hash, this`listeners
      requires Wellformed()
      ensures '#' !in a
      ensures hash == "" ==> a == ""
    {
      GetAnchor(hash).value
    }

    /** `parse()` of the current anchor. */
    function Current(): (r: Parsed)
      reads this`hook, this`hash, this`listeners
      requires Wellformed()
      ensures r.action.Some? <==> Contains(Anchor(), hook)
      ensures r.value.Some? <==> Contains(Anchor(), hook)
      ensures r.action.Some? ==> r.action.value + hook + r.value.value <= Anchor()
    {
      Parse(Anchor(), hook)
    }

    /** `_run()`: parse the anchor, fire `match` if anything matches, call every matched handler. */
    method Run()
      requires Wellformed()
      modifies this`action, this`value, this`trace
      decreases 1, 0
      ensures action == Current().action && value == Current().value
      ensures trace == old(trace) + RunTrace(listeners, actions, action, value)
    {
      var p := Parse(GetAnchor(hash).value, hook);
      action, value := p.action, p.value;
      assert p == Current();
      var ms := Matches(actions, action);
      var args := DispatchArgs(action, value);
      ghost var before := trace;
      ghost var fired: seq<Call> := [];
      if |ms| > 0 {
        MatchPhase(listeners, actions, action, value);
        RunnerNeverMatch(listeners);
        Trigger("match", args);
        fired := ListenerCalls(Targets(listeners, "match"), args, []);
      }
      assert trace == before + fired;
      CallHandlers(ms, args);
      AppendCalls(before, fired, HandlerCalls(ms, args));
    }

    /** Every matched handler, in order, is called with `args`. */
    method CallHandlers(ms: seq<Action>, args: seq<Arg>)
      modifies this`trace
      ensures trace == old(trace) + HandlerCalls(ms, args)
    {
      var i := 0;
      while i < |ms|
        invariant 0 <= i <= |ms|
        invariant trace == old(trace) + HandlerCalls(ms[..i], args)
      {
        assert ms[..i + 1][..i] == ms[..i];
        trace := trace + [Call(ms[i].handler, args)];
        i := i + 1;
      }
      assert ms[..|ms|] == ms;
    }

    /**
     * `listener.handler.apply(self, params)`: a callback is called; the
     * dispatch step runs, making the calls `run` of a dispatch in this state.
     */
    method Invoke(h: Handler, params: seq<Arg>, ghost run: seq<Call>)
      requires Wellformed()
      requires run == RunTrace(listeners, actions, Current().action, Current().value)
      modifies this`action, this`value, this`trace
      decreases if h.RunRouter? then 2 else 0, 0
      ensures trace == old(trace) + CallsOf(h, params, run)
      ensures if h.RunRouter?
              then action == Current().action && value == Current().value
              else action == old(action) && value == old(value)
    {
      match h
      case RunRouter =>
        ghost var cur := Current();
        Run();
        assert Current() == cur;
      case Callback(id) =>
        trace := trace + [Call(id, params)];
    }

    /** `_trigger(e, ...params)`: call every listener for `e`, in registration order, with `params`. */
    method Trigger(e: string, params: seq<Arg>)
      requires Wellformed()
      modifies this`action, this`value, this`trace
      decreases if e == "match" then 0 else 2, 2
      ensures trace == old(trace) + TriggerTrace(listeners, actions, Current().action, Current().value, e, params)
      ensures if RunRouter in Targets(listeners, e)
              then action == Current().action && value == Current().value
              else action == old(action) && value == old(value)
    {
      ghost var cur := Current();
      ghost var run := RunTrace(listeners, actions, cur.action, cur.value);
      var i := 0;
      while i < |listeners|
        invariant 0 <= i <= |listeners|
        invariant trace == old(trace) + ListenerCalls(Targets(listeners[..i], e), params, run)
        invariant RunRouter in Targets(listeners[..i], e) ==> action == cur.action && value == cur.value
        invariant RunRouter !in Targets(listeners[..i], e) ==> action == old(action) && value == old(value)
      {
        ghost var done := ListenerCalls(Targets(listeners[..i], e), params, run);
        ghost var step := if listeners[i].event == e then CallsOf(listeners[i].handler, params, run) else [];
        TargetsSnoc(listeners, i, e);
        if listeners[i].event == e {
          ListenerCallsSnoc(Targets(listeners[..i], e), listeners[i].handler, params, run);
        } else {
          assert Targets(listeners[..i + 1], e) == Targets(listeners[..i], e);
          assert done + step == done;
        }
        assert ListenerCalls(Targets(listeners[..i + 1], e), params, run) == done + step;
        assert Current() == cur;
        Notify(i, e, params, run);
        assert Current() == cur;
        assert trace == old(trace) + done + step;
        AppendCalls(old(trace), done, step);
        i := i + 1;
      }
      assert listeners[..|listeners|] == listeners;
    }

    /** One step of `_trigger`: the `i`-th listener is invoked when it listens to `e`. */
    method Notify(i: nat, e: string, params: seq<Arg>, ghost run: seq<Call>)
      requires Wellformed() && i < |listeners|
      requires run == RunTrace(listeners, actions, Current().action, Current().value)
      modifies this`action, this`value, this`trace
      decreases if e == "match" then 0 else 2, 1
      ensures listeners[i].event == e ==> trace == old(trace) + CallsOf(listeners[i].handler, params, run)
      ensures listeners[i].event != e ==> trace == old(trace)
      ensures if listeners[i].event == e && listeners[i].handler.RunRouter?
              then action == Current().action && value == Current().value
              else action == old(action) && value == old(value)
    {
      var l := listeners[i];
      if l.event == e {
        assert l.handler.RunRouter? ==> RunnerMayListen(l.event);
        Invoke(l.handler, params, run);
      }
    }

    /** `on(event, handler)`: one listener per event name, appended in order; then `_run()`. */
    method On(events: EventArg, handler: Handler)
      requires Wellformed()
      requires handler.RunRouter? ==> forall k :: 0 <= k < |EventNames(events)| ==> RunnerMayListen(EventNames(events)[k])
      modifies this`listeners, this`action, this`value, this`trace
      ensures Wellformed()
      ensures listeners == old(listeners) + ListenersFor(EventNames(events), handler)
      ensures action == Current().action && value == Current().value
      ensures trace == old(trace) + RunTrace(listeners, actions, action, value)
    {
      AddListeners(EventNames(events), handler);
      Run();
    }

    /** The `events.map(push)` loop of `on`: one listener per name, in order. */
    method AddListeners(names: seq<string>, handler: Handler)
      requires Wellformed()
      requires handler.RunRouter? ==> forall k :: 0 <= k < |names| ==> RunnerMayListen(names[k])
      modifies this`listeners
      ensures Wellformed()
      ensures listeners == old(listeners) + ListenersFor(names, handler)
    {
      var i := 0;
      while i < |names|
        invariant 0 <= i <= |names|
        invariant Wellformed()
        invariant listeners == old(listeners) + ListenersFor(names[..i], handler)
      {
        assert names[..i + 1][..i] == names[..i];
        RunnerOffMatchSnoc(listeners, Listener(names[i], handler));
        listeners := listeners + [Listener(names[i], handler)];
        i := i + 1;
      }
      assert names[..|names|] == names;
    }

    /** `add(name, handler)`: append one action; then `_run()`. */
    method Add(name: string, handler: nat)
      requires Wellformed()
      modifies this`actions, this`action, this`value, this`trace
      ensures actions == old(actions) + [Action(name, handler)]
      ensures action == Current().action && value == Current().value
      ensures trace == old(trace) + RunTrace(listeners, actions, action, value)
    {
      actions := actions + [Action(name, handler)];
      Run();
    }

    /** `setAnchor(anchor)`: assign the location hash; a falsy anchor clears it. */
    method SetAnchor(anchor: string)
      requires Wellformed()
      modifies this`hash
      ensures Wellformed()
      ensures hash == HashAfterSet(anchor)
    {
      hash := HashAfterSet(anchor);
    }

    /** `clearAnchor()`: `setAnchor(false)`. */
    method ClearAnchor()
      requires Wellformed()
      modifies this`hash
      ensures Wellformed()
      ensures hash == "" && Anchor() == ""
    {
      SetAnchor("");
    }

    /**
     * The browser changed the location hash to `newHash` and calls the
     * `onhashchange` the router installed: `_trigger('hashchange', getAnchor())`.
     */
    method HashChange(newHash: string)
      requires Valid() && IsLocationHash(newHash)
      modifies this`hash, this`action, this`value, this`trace
      ensures Valid()
      ensures hash == newHash
      ensures action == Current().action && value == Current().value
      ensures trace == old(trace) + TriggerTrace(listeners, actions, action, value, "hashchange", [Text(Anchor())])
    {
      hash := newHash;
      TargetsMembers(listeners, "hashchange", RunRouter);
      Trigger("hashchange", [Text(Anchor())]);
    }

    /**
     * `new Grapnel(hook)`: the hook or ":", the dispatch step registered for
     * `ready` and `hashchange`, a `prior` onhashchange callback chained as a
     * further `hashchange` listener, and `ready` fired once.
     */
    constructor (hookArg: Option<string>, location: string, prior: Option<nat>)
      requires IsLiteralPattern(HookOrDefault(hookArg))
      requires IsLocationHash(location)
      ensures Valid()
      ensures hook == HookOrDefault(hookArg) && hash == location && actions == []
      ensures listeners == StartupListeners(prior)
      ensures action == Current().action && value == Current().value
      ensures trace == []
    {
      hook := HookOrDefault(hookArg);
      hash := location;
      action, value := None, None;
      actions, listeners := [], [];
      trace := [];
      new;
      Install(prior);
      assert hook == HookOrDefault(hookArg) && hash == location && actions == [];
      StartupFacts(prior);
      Trigger("ready", [RouterSelf]);
      assert hook == HookOrDefault(hookArg) && hash == location && actions == [];
      ReadyTrace(listeners, action, value);
    }

    /** The listeners the constructor registers: the dispatch step on `ready` and `hashchange`, then any earlier `onhashchange`. */
    method Install(prior: Option<nat>)
      requires Wellformed() && listeners == [] && actions == [] && trace == []
      modifies this`listeners, this`action, this`value, this`trace
      ensures Wellformed()
      ensures listeners == StartupListeners(prior)
      ensures action == Current().action && value == Current().value
      ensures trace == []
    {
      On(Names(["ready", "hashchange"]), RunRouter);
      ListenersForAt(["ready", "hashchange"], RunRouter);
      RunTraceNoActions(listeners, action, value);
      assert listeners == [Listener("ready", RunRouter), Listener("hashchange", RunRouter)];
      ChainHashChange(prior);
      RunTraceNoActions(listeners, action, value);
    }

    /** A `window.onhashchange` installed before the router becomes one more `hashchange` listener. */
    method ChainHashChange(prior: Option<nat>)
      requires Wellformed()
      modifies this`listeners, this`action, this`value, this`trace
      ensures Wellformed()
      ensures listeners == old(listeners) + Chained(prior)
      ensures prior.Some? ==> action == Current().action && value == Current().value
      ensures prior.None? ==> action == old(action) && value == old(value)
      ensures trace == old(trace) + (if prior.Some? then RunTrace(listeners, actions, action, value) else [])
    {
      if prior.Some? {
        On(Name("hashchange"), Callback(prior.value));
        ListenersForAt(["hashchange"], Callback(prior.value));
      }
    }
  }
}
