# Grapnel 0.1.0 — a model of the hash-anchor action router

Grapnel is a small browser library that turns the URL fragment (the
*anchor*, the text after `#`) into an *action* and a *value*, split at a
*hook* string (`:` by default: `#dashboard:42` is action `dashboard`,
value `42`). Applications register *actions* (`add(name, handler)`) and
*event listeners* (`on(event, handler)` for `ready`, `match` and
`hashchange`). A dispatch (`_run`) parses the anchor. If any action carries
the parsed name, it fires `match` with `(value, action)` and then calls
every matching action's handler with the same pair, in insertion order.
The router dispatches once for each of its own `ready` and `hashchange`
events, and again after every `on` and `add`.

The project models the whole router object of `js/Grapnel-0.1.0.js`:

- `wrappers.dfy`: `Option`.
- `js_string.dfy` (`JsString`): `String.prototype.split` for a literal separator, as the router calls it at lines 51, 68 and 69. `IndexOf` is the leftmost search that `split` and a literal `match` (line 66) perform. `Join` is used only in proofs, as the inverse of `Split`.
- `hook.dfy` (`Hook`): the hook default, `getAnchor`, the effect of `setAnchor` on the browser's location hash, and `parse`.
- `registry.dfy` (`Registry`): handlers, listeners and actions as values, and `matches`. It also holds the specification functions for the callback calls of one `_run` (`RunTrace`) and one `_trigger` (`TriggerTrace`), and lemmas about them.
- `routing.dfy` (`Routing`): the class `Grapnel`. Its methods `On`, `Trigger`, `Run`, `Add`, `SetAnchor`, `ClearAnchor` and `HashChange`, and its constructor, update the router's fields in place. Each method is proved against the functions of `Registry` and `Hook`. `AddListeners`, `Notify`, `Invoke`, `CallHandlers`, `Install` and `ChainHashChange` are the loops and steps inside them.
- `scenarios.dfy` (`Scenarios`): concrete dispatches (`#dashboard:42`, an empty anchor, `clearAnchor` then `_run`).

Environment and handlers:

- The field `hash` stands for `window.location.hash`. The browser keeps it either empty or starting with `#` (`IsLocationHash`). `SetAnchor` stores what the browser would store.
- `HashChange(newHash)` is the browser changing the hash and calling the `onhashchange` function the constructor installed.
- A handler is either the router's own dispatch step (`RunRouter`, the `this._run` passed at `js/Grapnel-0.1.0.js:112`) or an application callback `Callback(id)`. A callback's effect is recorded as one `Call(id, args)` in the ghost field `trace`.
- The constructor's parameter `prior` stands for a function already installed as `window.onhashchange` (line 115).

A natural reading of "the value follows the hook" differs from the code in
two ways, and the model follows the code:

- The value is the piece between the first and the second hook (`split(hook)[1]`), not everything after the first hook. `Hook.ParseStopsAtSecondHook` states this.
- The round trip `parse(x + hook + y) == (x, y)` needs more than "`x` and `y` contain no hook" when the hook overlaps itself. With hook `aa`, the anchor `a` + `aa` splits as `""` and `a` (`Hook.OverlappingHook`). `Hook.HookFree` is the exact condition on `x`: with it the action is `x` (`Hook.ParseAfterFirstHook`), without it the action is never `x` (`Hook.ParseNeedsHookFree`).

## Model

| member | source | states |
|---|---|---|
| Hook.HookOrDefault | js/Grapnel-0.1.0.js:17 | the hook is never empty; it is the argument when that is a non-empty string, `:` otherwise |
| Hook.GetAnchor | js/Grapnel-0.1.0.js:50-52 | an empty hash gives the empty anchor; the result is undefined exactly when a non-empty hash has no `#`; a browser hash always gives an anchor; an anchor never contains `#` |
| Hook.GetAnchorSegment | js/Grapnel-0.1.0.js:51 | the anchor is the text between the first and the second `#` of the hash |
| Hook.HashAfterSet | js/Grapnel-0.1.0.js:54-57 | the hash after assignment is a browser hash; a falsy anchor clears it; a non-empty `#`-free anchor becomes `#` + anchor |
| Hook.SetThenGet | js/Grapnel-0.1.0.js:50-57 | reading the anchor back after setting a `#`-free anchor, with or without a leading `#`, gives that anchor |
| Routing.Grapnel.Anchor | js/Grapnel-0.1.0.js:50-52 | `getAnchor()` of the router's location hash: never contains `#`, and is empty for an empty hash |
| Routing.Grapnel.Current | js/Grapnel-0.1.0.js:63-76 | `parse()` of the current anchor: action and value are defined iff the anchor holds the hook, and action, hook, value is a prefix of the anchor |
| JsString.IndexOf | js/Grapnel-0.1.0.js:66-69 | the result is the first occurrence of the hook at or after the start; undefined means no occurrence there |
| JsString.Split | js/Grapnel-0.1.0.js:68-69 | at least one piece; exactly one piece iff the separator does not occur; no piece contains the separator; joining the pieces with the separator gives back the string |
| JsString.SplitAtFirst | js/Grapnel-0.1.0.js:68-69 | splitting cuts at the first occurrence and splits the rest after it again |
| JsString.ContainsChar | js/Grapnel-0.1.0.js:51 | a one-character separator occurs exactly when the character is in the string |
| Hook.Parse | js/Grapnel-0.1.0.js:63-76 | action and value are defined iff the anchor contains the hook; neither contains the hook; action, hook, value is a prefix of the anchor |
| Hook.ParseRoundTrip | js/Grapnel-0.1.0.js:66-69 | parsing `x + hook + y` gives `(x, y)` when `x` is hook-free and `y` has no hook |
| Hook.ParseAfterFirstHook | js/Grapnel-0.1.0.js:66-69 | for any hook-free `x` and any `rest`, parsing `x + hook + rest` gives action `x` and, as value, the first piece of `rest` split at the hook |
| Hook.ParseNeedsHookFree | js/Grapnel-0.1.0.js:66-69 | when `x` is not hook-free, `x + hook + rest` never parses to action `x`: an earlier hook occurrence cuts it short |
| Hook.ParseStopsAtSecondHook | js/Grapnel-0.1.0.js:68-69 | the value ends at the second hook: `x + hook + y + hook + z` gives `(x, y)` |
| Hook.ParseCharHook | js/Grapnel-0.1.0.js:63-76 | for a one-character hook, "hook-free" is "the character does not occur", and both round trips hold |
| Hook.OverlappingHook | js/Grapnel-0.1.0.js:66-69 | with the self-overlapping hook `aa`, joining `a`, `aa`, `""` parses back as `("", "a")`, not `("a", "")` |
| Registry.ListenersForAt | js/Grapnel-0.1.0.js:31-35 | `on` adds one listener per event name, in order, each with the given handler |
| Registry.EventNames | js/Grapnel-0.1.0.js:31 | a string names exactly one event, the whole string (`split()` with no separator does not split); an array names its elements |
| Registry.ListenersFor | js/Grapnel-0.1.0.js:33-35 | the listeners `on` appends are exactly as many as the event names |
| Registry.MatchesSound | js/Grapnel-0.1.0.js:88-96 | every match carries the current action name and is a registered action; there are no matches when the action is undefined |
| Registry.MatchesCount | js/Grapnel-0.1.0.js:88-96 | each action occurs among the matches as often as it is registered if its name is current, and never otherwise |
| Registry.MatchesEmpty | js/Grapnel-0.1.0.js:88-96 | nothing matches exactly when no registered action carries the current name |
| Registry.MatchesAppend | js/Grapnel-0.1.0.js:88-96 | the matches keep insertion order: the matches of `a + b` are those of `a` followed by those of `b` |
| Registry.Matches | js/Grapnel-0.1.0.js:88-96 | the matches are at most as many as the actions, and there are none when the action is undefined |
| Registry.TargetsMembers | js/Grapnel-0.1.0.js:43-45 | a handler is called for event `e` exactly when some listener pairs `e` with it |
| Registry.TargetsAppend | js/Grapnel-0.1.0.js:43-45 | targets keep registration order across concatenated listener lists |
| Registry.TargetsSnoc | js/Grapnel-0.1.0.js:43-44 | one more listener adds its handler to the targets of `e` exactly when it listens to `e` |
| Registry.RunnerNeverMatch | js/Grapnel-0.1.0.js:103 | the dispatch step is never a `match` listener, so firing `match` never re-enters `_run` |
| Registry.RunTraceOrder | js/Grapnel-0.1.0.js:98-107 | no match means no call at all; otherwise one call per `match` listener with `(value, action)`, then one call per matched handler, in order, with the same pair |
| Registry.RunTraceEmpty | js/Grapnel-0.1.0.js:103-107 | a dispatch calls something exactly when some action matches the current action |
| Registry.TriggerTrace | js/Grapnel-0.1.0.js:40-47 | an event with no listeners calls nothing; without the dispatch step among the targets, there is exactly one call per target |
| Registry.ListenerCallsAppend | js/Grapnel-0.1.0.js:43-45 | invoking two lists of handlers in turn makes the calls of the first, then those of the second |
| Registry.HashChangeTrace | js/Grapnel-0.1.0.js:112-122 | a `hashchange` on a freshly constructed router first runs the dispatch, then calls the earlier `onhashchange` callback, if there was one, with the same parameters |
| Registry.TriggerTraceExact | js/Grapnel-0.1.0.js:40-47 | without the dispatch step among the targets, `_trigger` calls exactly the listeners for the event, in order, with the given parameters |
| Registry.TriggerTraceSilent | js/Grapnel-0.1.0.js:40-47 | an event nobody listens to calls nothing |
| Registry.StartupFacts | js/Grapnel-0.1.0.js:112-115 | after startup the dispatch step is the only `ready` listener and listens to `hashchange` |
| Registry.ReadyTrace | js/Grapnel-0.1.0.js:124 | the initial `ready` runs the dispatch with no actions registered, which calls nothing |
| Registry.StartupListeners | js/Grapnel-0.1.0.js:112-115 | the startup listeners keep the dispatch step off `match`, contain the dispatch step on `ready` and on `hashchange` and any earlier `onhashchange`, and number two or three |
| Routing.Grapnel.Run | js/Grapnel-0.1.0.js:98-110 | stores the parsed action and value of the current anchor; the calls made are `RunTrace` of the listeners and actions |
| Routing.Grapnel.CallHandlers | js/Grapnel-0.1.0.js:105-107 | calls every matched handler once, in order, with the dispatch arguments |
| Routing.Grapnel.Trigger | js/Grapnel-0.1.0.js:40-48 | the calls made are `TriggerTrace`; action and value are re-parsed iff the dispatch step is among the targets, and kept otherwise |
| Routing.Grapnel.Notify | js/Grapnel-0.1.0.js:44 | one step of `_trigger`: the `i`-th listener is invoked exactly when it listens to `e`; action and value change only when it is the dispatch step |
| Routing.Grapnel.Invoke | js/Grapnel-0.1.0.js:44 | a callback is called once with the parameters; the dispatch step runs `_run`, making the calls of a dispatch in the current state |
| Routing.Grapnel.On | js/Grapnel-0.1.0.js:30-38 | appends one listener per event name (a string is one name), then runs a dispatch |
| Routing.Grapnel.AddListeners | js/Grapnel-0.1.0.js:33-35 | the push loop of `on`: appends exactly one listener per name, in order, and keeps the dispatch step off `match` |
| Routing.Grapnel.Add | js/Grapnel-0.1.0.js:83-86 | appends one action, then runs a dispatch |
| Routing.Grapnel.SetAnchor | js/Grapnel-0.1.0.js:54-57 | the location hash becomes what the browser stores for the anchor |
| Routing.Grapnel.ClearAnchor | js/Grapnel-0.1.0.js:59-61 | the location hash is cleared and the anchor reads as empty |
| Routing.Grapnel.HashChange | js/Grapnel-0.1.0.js:120-122 | the new hash is stored and `hashchange` is fired with the new anchor: the calls are `TriggerTrace` of `hashchange` |
| Routing.Grapnel.constructor | js/Grapnel-0.1.0.js:13-127 | hook default, no actions, listeners exactly the dispatch step on `ready` and `hashchange` plus any earlier `onhashchange`, the anchor parsed, no callback called |
| Routing.Grapnel.Install | js/Grapnel-0.1.0.js:112-115 | registers the dispatch step on `ready` and `hashchange`, then an earlier `onhashchange` on `hashchange`; no callback is called |
| Routing.Grapnel.ChainHashChange | js/Grapnel-0.1.0.js:115 | an earlier `onhashchange` becomes one more `hashchange` listener, followed by a dispatch |
| Scenarios.DashboardAnchor | js/Grapnel-0.1.0.js:50-52 | `#dashboard:42` reads as the anchor `dashboard:42` |
| Scenarios.DashboardParse | js/Grapnel-0.1.0.js:63-76 | with the default hook, `dashboard:42` parses to action `dashboard` and value `42` |
| Scenarios.DashboardTargets | js/Grapnel-0.1.0.js:43-45 | one `match` listener added after startup is the only `match` target |
| Scenarios.DashboardScenario | js/Grapnel-0.1.0.js:98-107 | action `dashboard` with handler `h` and a `match` listener `m`: `m` is called with `("42", "dashboard")`, then `h` with the same pair |
| Scenarios.EmptyAnchorScenario | js/Grapnel-0.1.0.js:63-107 | an empty anchor parses to nothing, matches no action and calls nothing |
| Scenarios.ClearThenRunScenario | js/Grapnel-0.1.0.js:59-107 | after `clearAnchor` the anchor is empty, nothing matches, and a dispatch calls nothing |

## Left out

- DOM plumbing: `window.location` and `window.onhashchange` are the field `hash`, the constructor parameter `prior` and the method `HashChange`. Percent-encoding and other normalisation by the browser are not modelled.
- The hash changing on its own: `hashchange` fires only through an explicit `HashChange` call.
- Handler bodies: a callback's only effect is one entry in `trace`. A callback that calls back into the router (re-entrancy) is outside the model.
- `Array.prototype.map` iterates over a snapshot of the array's length. Because callbacks cannot change the lists, iterating over the live field is the same.
- `_run` calls `parse()` and `matches()` twice each. Both calls see the same state, so the model calls each once.
- The regular-expression meaning of `String.prototype.match(hook)`: the hook is required to contain no regular-expression metacharacter (`IsLiteralPattern`), so `match` is substring search. A hook such as `|` is outside the model: as a pattern it matches every anchor.
- JavaScript's loose `==` and the binding of `this` inside handlers: names are compared as strings, and handlers receive only their arguments.
- Exceptions thrown by handlers.
- Non-string arguments (a hook, anchor or event name that is not a string or array of strings). The only falsy anchor modelled is the empty string: `clearAnchor`'s `false` becomes `""`.
- Routing.Grapnel.On: registering the dispatch step itself for `match` is excluded. `_run` fires `match`, so a dispatch step listening to it would run itself again without end. Any other event is allowed.
- Routing.Grapnel.constructor: requires a hook without regular-expression metacharacters (see above).
- The `return this` results used for chaining calls are not modelled: the methods return nothing.
- Hook.GetAnchor: the undefined anchor of a hash without `#` is modelled by the function, but the class never holds such a hash (`IsLocationHash`).
