/**
 * Concrete dispatches of a router, stated as facts about the specification
 * functions the methods of `Routing.Grapnel` are proved against.
 */
module Scenarios {
  import opened Wrappers
  import opened JsString
  import opened Hook
  import opened Registry

  /** The arguments a handler receives for `#dashboard:42`: the value first, then the action. */
  function DashboardArgs(): seq<Arg> {
    [Text("42"), Text("dashboard")]
  }

  /** The location hash `#dashboard:42` reads as the anchor `dashboard:42`. */
  lemma DashboardAnchor()
    ensures GetAnchor("#dashboard:42") == Some("dashboard:42")
  {
    var a := "dashboard:42";
    assert "#dashboard:42" == "" + "#" + a + "";
    assert '#' !in a;
    GetAnchorSegment("", a, "");
  }

  /** With the default hook `:`, the anchor `dashboard:42` parses to action `dashboard` and value `42`. */
  lemma DashboardParse()
    ensures Parse("dashboard:42", HookOrDefault(None)) == Parsed(Some("dashboard"), Some("42"))
  {
    ParseCharHook("dashboard", ':', "42", "");
    assert "dashboard" + [':'] + "42" == "dashboard:42";
  }

  /** A router's startup listeners plus one `match` listener `m`: `m` is the only `match` target. */
  lemma DashboardTargets(m: nat)
    ensures Targets(StartupListeners(None) + [Listener("match", Callback(m))], "match") == [Callback(m)]
  {
    var ls := StartupListeners(None) + [Listener("match", Callback(m))];
    var startup := [Listener("ready", RunRouter), Listener("hashchange", RunRouter)];
    assert StartupListeners(None) == startup;
    TargetsNone(startup, "match");
    TargetsAppend(startup, [Listener("match", Callback(m))], "match");
    assert [Listener("match", Callback(m))][..0] == [];
  }

  /**
   * Default hook, location hash `#dashboard:42`, one `match` listener `m`
   * and one action `dashboard` with handler `h`: the `match` listener is
   * called with `("42", "dashboard")` and then `h` with the same pair.
   */
  lemma DashboardScenario(h: nat, m: nat)
    ensures RunTrace(StartupListeners(None) + [Listener("match", Callback(m))],
                     [Action("dashboard", h)], Some("dashboard"), Some("42"))
            == [Call(m, DashboardArgs()), Call(h, DashboardArgs())]
  {
    DashboardTargets(m);
    var ms := [Action("dashboard", h)];
    var args := DispatchArgs(Some("dashboard"), Some("42"));
    assert args == DashboardArgs();
    assert ms[..0] == [];
    assert Matches(ms, Some("dashboard")) == ms;
    assert [Callback(m)][..0] == [];
    assert ListenerCalls([Callback(m)], args, []) == [Call(m, args)];
    assert HandlerCalls(ms, args) == [Call(h, args)];
  }

  /**
   * An empty anchor never holds the hook: it parses to no action and no
   * value, no action matches, and a dispatch calls nothing.
   */
  lemma EmptyAnchorScenario(ls: seq<Listener>, hook: string, h: nat)
    requires hook != ""
    ensures Parse(GetAnchor("").value, hook) == Parsed(None, None)
    ensures Matches([Action("home", h)], None) == []
    ensures RunTrace(ls, [Action("home", h)], None, None) == []
  {
    assert !OccursAt("", hook, 0);
    assert [Action("home", h)][..0] == [];
  }

  /**
   * `clearAnchor()` then `_run()`: the anchor reads as empty, nothing
   * matches, and neither a `match` listener nor a handler is called.
   */
  lemma ClearThenRunScenario(ls: seq<Listener>, actions: seq<Action>, hook: string)
    requires hook != ""
    ensures GetAnchor(HashAfterSet("")) == Some("")
    ensures Parse(GetAnchor(HashAfterSet("")).value, hook) == Parsed(None, None)
    ensures Matches(actions, None) == []
    ensures RunTrace(ls, actions, None, None) == []
  {
    assert !OccursAt("", hook, 0);
    MatchesSound(actions, None);
  }
}
