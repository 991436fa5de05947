/** The mock MCP server: scripted failures per tool, each with its own budget. */
module MockServer {
  import opened Basics
  import opened Ids

  const LOOPBACK_HOST := "127.0.0.1"

  const SUPPORTED_TOOLS: set<string> := {
    "get_design_context", "get_metadata", "get_screenshot", "get_variable_defs", "search_design_system"
  }

  datatype Scenario =
    | Healthy
    | RateLimit(retryAfterSeconds: Option<nat>, failTimes: Option<int>)
    | ServerError(failTimes: Option<int>)
    | Slow(delayMs: Option<nat>)
    | Partial
    | ErrorEnvelope(message: Option<string>, failTimes: Option<int>)
    | AuthError(status: Option<nat>)
    | NotFound
    | InvalidRequest
  {
    /** Scenarios that fail only as often as their budget allows. */
    predicate Budgeted() {
      RateLimit? || ServerError? || ErrorEnvelope?
    }

    /** Scenarios that never fail. */
    predicate Succeeds() {
      Healthy? || Slow?
    }

    /** Whether the n-th request since the scenario was set fails, counting from one. */
    predicate FailsAt(n: nat) {
      !Succeeds() && (Budgeted() && failTimes.Some? ==> n <= failTimes.value)
    }

    /** The failures spent by the first n requests. */
    function Spent(n: nat): nat {
      if !Budgeted() || failTimes.None? then 0
      else if n <= failTimes.value then n
      else if failTimes.value < 0 then 0
      else failTimes.value
    }
  }

  datatype ToolState = ToolState(scenario: Scenario, consumedFailures: nat)

  const FRESH := ToolState(Healthy, 0)

  // ---- Requests --------------------------------------------------------------------------------

  /** The request body after JSON parsing; the name is present when it is a string. */
  datatype Body = Unparsable | Parsed(name: Option<string>)

  datatype Request = Request(host: Option<string>, isPost: bool, body: Body, aborted: bool)

  function BeforeColon(s: string): string {
    if s == [] || s[0] == ':' then [] else [s[0]] + BeforeColon(s[1..])
  }

  predicate IsHostAllowed(host: Option<string>) {
    host.Some? && Trim(BeforeColon(host.value)) == LOOPBACK_HOST
  }

  /** The port, or anything else after a first colon, plays no part in admission. */
  lemma PortIsIgnored(name: string, rest: string)
    requires ':' !in name
    ensures BeforeColon(name) == name
    ensures IsHostAllowed(Some(name + ":" + rest)) <==> IsHostAllowed(Some(name))
    ensures IsHostAllowed(Some(name)) <==> Trim(name) == "127.0.0.1"
  {
    BeforeColonStops(name, ":" + rest);
    BeforeColonStops(name, "");
    assert name + "" == name && name + ":" + rest == name + (":" + rest);
  }

  lemma {:induction false} BeforeColonStops(name: string, rest: string)
    requires ':' !in name && (rest == [] || rest[0] == ':')
    ensures BeforeColon(name + rest) == name
  {
    if name == [] {
      assert name + rest == rest;
    } else {
      assert (name + rest)[1..] == name[1..] + rest;
      BeforeColonStops(name[1..], rest);
    }
  }

  /** The status a request is turned away with before any scenario runs, checked in this order. */
  function Rejection(request: Request): Option<nat> {
    if !IsHostAllowed(request.host) then Some(403)
    else if !request.isPost then Some(405)
    else if request.body.Unparsable? then Some(400)
    else if request.body.name.None? || request.body.name.value == "" then Some(400)
    else if request.body.name.value !in SUPPORTED_TOOLS then Some(404)
    else None
  }

  datatype Reply =
    | Rejected(status: nat)
    | Payload(tool: string)
    | Failure(status: nat, retryAfter: Option<nat>)
    | Truncated
    | NoReply

  /** How a scenario fails when it does. */
  function FailureReply(scenario: Scenario): Reply
    requires !scenario.Succeeds()
  {
    match scenario
    case RateLimit(retryAfter, _) => Failure(429, Some(retryAfter.GetOr(1)))
    case ServerError(_) => Failure(500, None)
    case ErrorEnvelope(_, _) => Failure(200, None)
    case Partial => Truncated
    case AuthError(status) => Failure(status.GetOr(401), None)
    case NotFound => Failure(404, None)
    case InvalidRequest => Failure(400, None)
  }

  /** Requests are turned away for the first thing that is wrong with them: a foreign host, another method
      than POST, a body without a tool name, an unknown tool. */
  lemma RejectionsInOrder(r: Request)
    ensures Rejection(r) == Some(403) <==> !IsHostAllowed(r.host)
    ensures Rejection(r) == Some(405) <==> IsHostAllowed(r.host) && !r.isPost
    ensures Rejection(r) == Some(400)
        <==> (IsHostAllowed(r.host) && r.isPost && (r.body == Unparsable || r.body == Parsed(None) || r.body == Parsed(Some(""))))
    ensures Rejection(r) == Some(404)
        <==> (IsHostAllowed(r.host) && r.isPost
              && r.body.Parsed? && r.body.name.Some? && r.body.name.value != "" && r.body.name.value !in SUPPORTED_TOOLS)
    ensures Rejection(r).Some? ==> Rejection(r).value in {400, 403, 404, 405}
  {
  }

  /** What a client can tell from a failing reply: a rate limit answers 429 and always says when to come
      back, a broken server 500, an error envelope arrives with 200, a partial reply breaks off, and the
      lasting failures keep their own client-error status. */
  lemma FailuresSayWhy(scenario: Scenario)
    requires !scenario.Succeeds()
    ensures scenario.RateLimit? <==> FailureReply(scenario).Failure? && FailureReply(scenario).retryAfter.Some?
    ensures scenario.RateLimit? ==> FailureReply(scenario).status == 429
    ensures scenario.RateLimit? && scenario.retryAfterSeconds.Some? ==> FailureReply(scenario).retryAfter == scenario.retryAfterSeconds
    ensures scenario.RateLimit? && scenario.retryAfterSeconds.None? ==> FailureReply(scenario).retryAfter == Some(1)
    ensures scenario.ServerError? ==> FailureReply(scenario) == Failure(500, None)
    ensures scenario.ErrorEnvelope? ==> FailureReply(scenario) == Failure(200, None)
    ensures scenario.Partial? <==> FailureReply(scenario) == Truncated
    ensures scenario == AuthError(None) ==> FailureReply(scenario) == Failure(401, None)
    ensures scenario.AuthError? && scenario.status.Some? ==> FailureReply(scenario) == Failure(scenario.status.value, None)
    ensures scenario.NotFound? ==> FailureReply(scenario) == Failure(404, None)
    ensures scenario.InvalidRequest? ==> FailureReply(scenario) == Failure(400, None)
  {
  }

  // ---- Histories -------------------------------------------------------------------------------

  /** Everything that can happen to the server, rejected requests included. */
  datatype Event = Set(tool: string, scenario: Scenario) | Cleared | Accepted(tool: string) | TurnedAway

  /** The scenario a tool is under after a history. */
  function ActiveScenario(history: seq<Event>, tool: string): Scenario {
    if history == [] then Healthy
    else
      var last := history[|history| - 1];
      if last.Cleared? then Healthy
      else if last.Set? && last.tool == tool then last.scenario
      else ActiveScenario(history[..|history| - 1], tool)
  }

  /** The requests a tool has accepted since its scenario was last set or cleared. */
  function AcceptedSince(history: seq<Event>, tool: string): nat {
    if history == [] then 0
    else
      var last := history[|history| - 1];
      if last.Cleared? || (last.Set? && last.tool == tool) then 0
      else AcceptedSince(history[..|history| - 1], tool) + (if last == Accepted(tool) then 1 else 0)
  }

  /** Whether the request accepted at position i of a history failed. */
  predicate Failed(history: seq<Event>, i: nat)
    requires i < |history| && history[i].Accepted?
  {
    var before, tool := history[..i], history[i].tool;
    ActiveScenario(before, tool).FailsAt(AcceptedSince(before, tool) + 1)
  }

  // ---- The server ------------------------------------------------------------------------------

  class MockMcpServer {
    var states: map<string, ToolState>
    ghost var history: seq<Event>

    /** What the server knows of a tool. */
    function StateOf(tool: string): ToolState
      reads this
    {
      if tool in states then states[tool] else FRESH
    }

    /** Every tool's state is what the history says: its scenario, and what its requests have spent. */
    ghost predicate Valid()
      reads this
    {
      && states.Keys <= SUPPORTED_TOOLS
      && forall tool {:trigger StateOf(tool)} :: StateOf(tool) == Expected(tool)
    }

    ghost function Expected(tool: string): ToolState
      reads this
    {
      var scenario := if tool in SUPPORTED_TOOLS then ActiveScenario(history, tool) else Healthy;
      ToolState(scenario, scenario.Spent(AcceptedSince(history, tool)))
    }

    constructor ()
      ensures Valid() && history == []
    {
      states := map[];
      history := [];
    }

    /** setScenario: refused for unknown tools; otherwise the tool starts a fresh budget. */
    method SetScenario(tool: string, scenario: Scenario) returns (ok: bool)
      requires Valid()
      modifies this
      ensures Valid()
      ensures ok <==> tool in SUPPORTED_TOOLS
      ensures history == if ok then old(history) + [Set(tool, scenario)] else old(history)
      ensures states == if ok then old(states)[tool := ToolState(scenario, 0)] else old(states)
    {
      if tool !in SUPPORTED_TOOLS {
        return false;
      }
      ghost var before := history;
      states := states[tool := ToolState(scenario, 0)];
      history := history + [Set(tool, scenario)];
      assert history[..|before|] == before;
      forall other
        ensures StateOf(other) == Expected(other)
      {
        assert old(StateOf(other) == Expected(other));
      }
      return true;
    }

    method Reset()
      requires Valid()
      modifies this
      ensures Valid() && history == old(history) + [Cleared]
      ensures states == map[]
    {
      states := map[];
      history := history + [Cleared];
    }

    /** shouldApplyFailure: spends one failure unless the budget is gone; no budget never runs out. */
    method ShouldApplyFailure(tool: string) returns (fails: bool)
      requires tool in states && states[tool].scenario.Budgeted()
      modifies this`states
      ensures var was := old(states[tool]);
              && (fails <==> (was.scenario.failTimes.Some? ==> was.consumedFailures < was.scenario.failTimes.value))
              && states == if fails && was.scenario.failTimes.Some?
                           then old(states)[tool := ToolState(was.scenario, was.consumedFailures + 1)]
                           else old(states)
    {
      var state := states[tool];
      if state.scenario.failTimes.Some? {
        if state.consumedFailures >= state.scenario.failTimes.value {
          return false;
        }
        states := states[tool := ToolState(state.scenario, state.consumedFailures + 1)];
        return true;
      }
      return true;
    }

    /** handleRequest and executeScenario. */
    method HandleRequest(request: Request) returns (reply: Reply)
      requires Valid()
      modifies this
      ensures Valid()
      ensures Rejection(request).Some? ==>
        reply == Rejected(Rejection(request).value) && states == old(states) && history == old(history) + [TurnedAway]
      ensures Rejection(request).None? ==>
        var tool := request.body.name.value;
        var scenario := ActiveScenario(old(history), tool);
        && history == old(history) + [Accepted(tool)]
        && reply == (if Failed(history, |old(history)|) then FailureReply(scenario)
                     else if scenario.Slow? && request.aborted then NoReply
                     else Payload(tool))
        && forall other :: other != tool ==> StateOf(other) == old(StateOf(other))
    {
      ghost var before := history;
      var rejection := Rejection(request);
      if rejection.Some? {
        history := history + [TurnedAway];
        assert history[..|before|] == before;
        forall other
          ensures StateOf(other) == Expected(other)
        {
          assert old(StateOf(other) == Expected(other));
        }
        return Rejected(rejection.value);
      }
      var tool := request.body.name.value;
      var state := StateOf(tool);
      assert state == Expected(tool);
      states := states[tool := state];
      var fails := !state.scenario.Succeeds();
      if state.scenario.Budgeted() {
        fails := ShouldApplyFailure(tool);
      }
      history := history + [Accepted(tool)];
      assert history[..|before|] == before;
      forall other
        ensures StateOf(other) == Expected(other)
      {
        assert old(StateOf(other) == Expected(other));
      }
      if fails {
        return FailureReply(state.scenario);
      }
      if state.scenario.Slow? && request.aborted {
        return NoReply;
      }
      return Payload(tool);
    }
  }

  // ---- Over whole histories --------------------------------------------------------------------

  /** Events that leave a tool's scenario in place. */
  predicate Keeps(event: Event, tool: string) {
    !event.Cleared? && !(event.Set? && event.tool == tool)
  }

  function CountAccepted(events: seq<Event>, tool: string): nat {
    if events == [] then 0
    else CountAccepted(events[..|events| - 1], tool) + (if events[|events| - 1] == Accepted(tool) then 1 else 0)
  }

  /** Once set, a scenario stays until the tool is set again or the server is reset, and only the tool's
      own accepted requests count against it: other tools and rejected requests spend nothing. */
  lemma {:induction false} ScenarioHolds(before: seq<Event>, tool: string, scenario: Scenario, later: seq<Event>)
    requires forall e :: e in later ==> Keeps(e, tool)
    ensures ActiveScenario(before + [Set(tool, scenario)] + later, tool) == scenario
    ensures AcceptedSince(before + [Set(tool, scenario)] + later, tool) == CountAccepted(later, tool)
  {
    var h := before + [Set(tool, scenario)] + later;
    if later == [] {
      assert h == before + [Set(tool, scenario)];
    } else {
      var rest, last := later[..|later| - 1], later[|later| - 1];
      assert last in later && forall e :: e in rest ==> e in later;
      ScenarioHolds(before, tool, scenario, rest);
      assert h[..|h| - 1] == before + [Set(tool, scenario)] + rest && h[|h| - 1] == last;
    }
  }

  /** Under a failing scenario, a request fails exactly when the budget is absent or not yet used up by
      the tool's earlier requests since the scenario was set. */
  lemma NthRequestFailsExactly(before: seq<Event>, tool: string, scenario: Scenario, later: seq<Event>)
    requires forall e :: e in later ==> Keeps(e, tool)
    ensures var h := before + [Set(tool, scenario)] + later + [Accepted(tool)];
            Failed(h, |h| - 1) <==> scenario.FailsAt(CountAccepted(later, tool) + 1)
  {
    var h := before + [Set(tool, scenario)] + later;
    assert (h + [Accepted(tool)])[..|h|] == h;
    ScenarioHolds(before, tool, scenario, later);
  }

  /** The failures of a tool from position start of a history on. */
  function CountFailed(history: seq<Event>, start: nat, tool: string): nat
    requires start <= |history|
    decreases |history|
  {
    if start == |history| then 0
    else
      var n := |history| - 1;
      CountFailed(history[..n], start, tool) + (if history[n] == Accepted(tool) && Failed(history, n) then 1 else 0)
  }

  /** The failures a scenario has caused are exactly those its budget records: never more than
      failTimes, and all of them before the first success. */
  lemma {:induction false} FailuresAreTheBudgetSpent(before: seq<Event>, tool: string, scenario: Scenario, later: seq<Event>)
    requires scenario.Budgeted() && scenario.failTimes.Some?
    requires forall e :: e in later ==> Keeps(e, tool)
    ensures var h := before + [Set(tool, scenario)] + later;
            && CountFailed(h, |before| + 1, tool) == scenario.Spent(CountAccepted(later, tool))
            && (scenario.failTimes.value >= 0 ==> CountFailed(h, |before| + 1, tool) <= scenario.failTimes.value)
  {
    var h := before + [Set(tool, scenario)] + later;
    if later == [] {
      assert h == before + [Set(tool, scenario)];
    } else {
      var rest, last := later[..|later| - 1], later[|later| - 1];
      assert last in later && forall e :: e in rest ==> e in later;
      FailuresAreTheBudgetSpent(before, tool, scenario, rest);
      var g := before + [Set(tool, scenario)] + rest;
      assert h[..|h| - 1] == g && h[|h| - 1] == last;
      ScenarioHolds(before, tool, scenario, rest);
    }
  }

  /** A reset returns every tool to health. */
  lemma {:induction false} ResetHeals(before: seq<Event>, tool: string, later: seq<Event>)
    requires forall e :: e in later ==> Keeps(e, tool)
    ensures ActiveScenario(before + [Cleared] + later, tool) == Healthy
    ensures !Failed(before + [Cleared] + later + [Accepted(tool)], |before| + 1 + |later|)
  {
    var h := before + [Cleared] + later;
    assert (h + [Accepted(tool)])[..|h|] == h;
    if later == [] {
      assert h == before + [Cleared];
    } else {
      var rest, last := later[..|later| - 1], later[|later| - 1];
      assert last in later && forall e :: e in rest ==> e in later;
      ResetHeals(before, tool, rest);
      assert h[..|h| - 1] == before + [Cleared] + rest && h[|h| - 1] == last;
    }
  }
}
