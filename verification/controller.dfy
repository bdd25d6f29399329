/**
 * The controller: one invocation `hue_control.py <state> [session_id]`.
 * Its observable output is the sequence of state names sent to the light;
 * the sleep of the success path is the boundary between the two commands
 * it sends. Clock readings are parameters.
 */
module Controller {
  import opened Wrappers
  import opened Catalog
  import opened Sessions
  import opened Resolver

  /**
   * The wall-clock readings of one invocation: garbage collection, the
   * first write, and the write after the success sleep.
   */
  datatype Clock = Clock(sweepAt: int, writeAt: int, wakeAt: int)

  /** Why an invocation exits with status 1 before doing anything. */
  datatype Error = Usage | UnknownState(name: StateName)

  /** The registry an invocation leaves behind and the states it sent, in order. */
  datatype Run = Run(registry: Registry, commands: seq<StateName>)

  /** Legacy single-session mode: show the state; success is followed by "off" after the sleep. */
  function Legacy(state: StateName): (commands: seq<StateName>)
    ensures 1 <= |commands| <= 2 && commands[0] == state
    ensures |commands| == 2 <==> state == "success"
    ensures |commands| == 2 ==> commands[1] == "off"
  {
    if state == "success" then [state, "off"] else [state]
  }

  /** No record but the caller's differs between `live` and `after`. */
  ghost predicate OthersUntouched(live: Registry, after: Registry, id: SessionId) {
    && (forall k :: k != id ==> (k in after <==> k in live))
    && (forall k :: k != id && k in after ==> after[k] == live[k])
  }

  /** "off": the caller's record is removed and whatever remains is shown. */
  ghost function EndSession(live: Registry, id: SessionId): (run: Run)
    ensures OthersUntouched(live, run.registry, id)
    ensures id !in run.registry
    ensures run.commands == [Resolve(run.registry)]
    ensures forall c :: c in run.commands ==> c in States
    ensures !Listed(id) ==> forall c :: c in run.commands ==> c == Resolve(live - {id})
  {
    var after := Unregister(live, id);
    Run(after, [Resolve(after)])
  }

  /**
   * "success": the caller's record is written as success and the winner
   * shown; after the sleep it is rewritten as "session" and the winner shown
   * again, so the caller keeps a record and, when listed, the light does not
   * go dark.
   */
  ghost function ShowSuccess(live: Registry, id: SessionId, clock: Clock): (run: Run)
    ensures OthersUntouched(live, run.registry, id)
    ensures id in run.registry && run.registry[id] == Record("session", clock.wakeAt)
    ensures |run.commands| == 2
    ensures run.commands[0] == Resolve(run.registry[id := Record("success", clock.writeAt)])
    ensures run.commands[1] == Resolve(run.registry)
    ensures forall c :: c in run.commands ==> c in States
    ensures Listed(id) ==> Priority("success") <= Priority(run.commands[0])
    ensures Listed(id) ==> Priority("session") <= Priority(run.commands[1])
    ensures !Listed(id) ==> forall c :: c in run.commands ==> c == Resolve(live - {id})
  {
    var shown := Register(live, id, "success", clock.writeAt);
    var demoted := Register(shown, id, "session", clock.wakeAt);
    RegisteredStateNotOutranked(live, id, "success", clock.writeAt);
    RegisteredStateNotOutranked(shown, id, "session", clock.wakeAt);
    RewriteOwnRecord(live, id, "success", clock.writeAt, "session", clock.wakeAt);
    Run(demoted, [Resolve(shown), Resolve(demoted)])
  }

  /** Any other state: the caller's record is written and the winner shown. */
  ghost function ShowState(live: Registry, id: SessionId, state: StateName, clock: Clock): (run: Run)
    ensures OthersUntouched(live, run.registry, id)
    ensures id in run.registry && run.registry[id] == Record(state, clock.writeAt)
    ensures run.commands == [Resolve(run.registry)]
    ensures forall c :: c in run.commands ==> c in States
    ensures Listed(id) ==> Priority(state) <= Priority(run.commands[0])
    ensures !Listed(id) ==> forall c :: c in run.commands ==> c == Resolve(live - {id})
  {
    var after := Register(live, id, state, clock.writeAt);
    RegisteredStateNotOutranked(live, id, state, clock.writeAt);
    Run(after, [Resolve(after)])
  }

  /**
   * Session-aware mode after garbage collection, on the collected registry
   * `live`. After every write the winner is resolved afresh and sent, and
   * the light ends showing the winner of the registry left behind.
   */
  ghost function Transition(live: Registry, id: SessionId, state: StateName, clock: Clock): (run: Run)
    ensures OthersUntouched(live, run.registry, id)
    ensures 1 <= |run.commands| && run.commands[|run.commands| - 1] == Resolve(run.registry)
    ensures forall c :: c in run.commands ==> c in States
    ensures state == "off" ==> id !in run.registry && |run.commands| == 1
    ensures state == "success" ==>
              && |run.commands| == 2
              && id in run.registry && run.registry[id] == Record("session", clock.wakeAt)
              && run.commands[0] == Resolve(run.registry[id := Record("success", clock.writeAt)])
              && (Listed(id) ==> Priority("success") <= Priority(run.commands[0]))
              && (Listed(id) ==> Priority("session") <= Priority(run.commands[1]))
    ensures state != "off" && state != "success" ==>
              && |run.commands| == 1
              && id in run.registry && run.registry[id] == Record(state, clock.writeAt)
              && (Listed(id) ==> Priority(state) <= Priority(run.commands[0]))
    // the record of the empty id is invisible: every command shows the other sessions alone
    ensures !Listed(id) ==> forall c :: c in run.commands ==> c == Resolve(live - {id})
  {
    if state == "off" then EndSession(live, id)
    else if state == "success" then ShowSuccess(live, id, clock)
    else ShowState(live, id, state, clock)
  }

  /**
   * Session-aware mode: garbage collection runs first, then the transition.
   * Apart from the collection, no other session's record changes.
   */
  ghost function SessionAware(reg: Registry, id: SessionId, state: StateName, clock: Clock): (run: Run)
    ensures forall k :: k != id ==>
              (k in run.registry <==> k in reg && (!Listed(k) || Fresh(reg[k], clock.sweepAt)))
    ensures forall k :: k != id && k in run.registry ==> run.registry[k] == reg[k]
    ensures run == Transition(Cleanup(reg, clock.sweepAt), id, state, clock)
  {
    Transition(Cleanup(reg, clock.sweepAt), id, state, clock)
  }

  /**
   * One invocation with arguments `args` (the command line after the
   * program name): a missing or unknown state exits before the registry or
   * the light is touched; without a session id the registry is bypassed.
   */
  ghost function Invoke(args: seq<string>, reg: Registry, clock: Clock): (r: Result<Run, Error>)
    ensures r == Failure(Usage) <==> |args| == 0
    ensures r.Failure? <==> |args| == 0 || args[0] !in States
    ensures r.Failure? && |args| > 0 ==> r.error == UnknownState(args[0])
    ensures r.Success? ==> forall c :: c in r.value.commands ==> CommandFor(c).Some?
    ensures r.Success? && |args| == 1 ==> r.value.registry == reg && r.value.commands == Legacy(args[0])
    ensures r.Success? && |args| >= 2 ==>
              1 <= |r.value.commands| && r.value.commands[|r.value.commands| - 1] == Resolve(r.value.registry)
    ensures r.Success? && |args| >= 2 ==> r.value == SessionAware(reg, args[1], args[0], clock)
  {
    if |args| == 0 then Failure(Usage)
    else if args[0] !in States then Failure(UnknownState(args[0]))
    else if |args| == 1 then
      var commands := Legacy(args[0]);
      assert forall c :: c in commands ==> c in States;
      Success(Run(reg, commands))
    else
      var run := SessionAware(reg, args[1], args[0], clock);
      assert forall c :: c in run.commands ==> c in States;
      Success(run)
  }

  /** A finished success with no other live session leaves the quiet "session" colour, not darkness. */
  lemma SuccessAloneDemotesToSession(reg: Registry, id: SessionId, clock: Clock)
    requires Listed(id)
    requires forall k :: k in reg && k != id ==> !Fresh(reg[k], clock.sweepAt)
    ensures SessionAware(reg, id, "success", clock).commands == ["success", "session"]
  {
    TablesAgree();
    var live := Cleanup(reg, clock.sweepAt);
    var shown := Register(live, id, "success", clock.writeAt);
    var demoted := Register(shown, id, "session", clock.wakeAt);
    assert Claims(shown) == {"success"};
    assert Claims(demoted) == {"session"};
    ResolveIs(shown, "success");
    ResolveIs(demoted, "session");
  }

  /** The last session to end turns the light off. */
  lemma LastSessionOffGoesDark(reg: Registry, id: SessionId, clock: Clock)
    requires forall k :: k in reg && k != id ==> Listed(k) && !Fresh(reg[k], clock.sweepAt)
    ensures SessionAware(reg, id, "off", clock) == Run(map[], ["off"])
  {
    ResolveEmpty();
    var after := Unregister(Cleanup(reg, clock.sweepAt), id);
    assert after == map[];
  }

  /** One session-aware step on a registry of fresh records, spelled out. */
  lemma StepOnFresh(reg: Registry, id: SessionId, state: StateName, clock: Clock)
    requires forall k :: k in reg ==> Fresh(reg[k], clock.sweepAt)
    requires state != "success"
    ensures SessionAware(reg, id, state, clock).registry
              == if state == "off" then reg - {id} else reg[id := Record(state, clock.writeAt)]
  {
    assert Cleanup(reg, clock.sweepAt) == reg;
  }

  /** The claims of the two-session registry of the scenario. */
  lemma ScenarioClaims(a: Entry, b: Entry, t: int)
    requires a == Record("attention", t) && b == Record("thinking", t)
    ensures Claims(map["A" := a, "B" := b]) == {"attention", "thinking"}
    ensures Claims(map["B" := b]) == {"thinking"}
  {
    var reg2 := map["A" := a, "B" := b];
    assert reg2["A"].Ok? && StateOf(reg2["A"]) == "attention";
    assert reg2["B"].Ok? && StateOf(reg2["B"]) == "thinking";
    var reg3 := map["B" := b];
    assert reg3["B"].Ok? && StateOf(reg3["B"]) == "thinking";
  }

  /** B asks for thinking while A holds attention: attention keeps the light. */
  lemma ScenarioStepB(clock: Clock, a: Entry, b: Entry)
    requires clock.sweepAt <= clock.writeAt
    requires a == Record("attention", clock.writeAt) && b == Record("thinking", clock.writeAt)
    ensures SessionAware(map["A" := a], "B", "thinking", clock) == Run(map["A" := a, "B" := b], ["attention"])
  {
    var reg2 := map["A" := a, "B" := b];
    StepOnFresh(map["A" := a], "B", "thinking", clock);
    assert map["A" := a]["B" := b] == reg2;
    ScenarioClaims(a, b, clock.writeAt);
    assert IsWinner(Claims(reg2), "attention");
    ResolveIs(reg2, "attention");
  }

  /** A ends: B's thinking takes the light. */
  lemma ScenarioEndA(clock: Clock, a: Entry, b: Entry)
    requires clock.sweepAt <= clock.writeAt
    requires a == Record("attention", clock.writeAt) && b == Record("thinking", clock.writeAt)
    ensures SessionAware(map["A" := a, "B" := b], "A", "off", clock) == Run(map["B" := b], ["thinking"])
  {
    var reg3 := map["B" := b];
    StepOnFresh(map["A" := a, "B" := b], "A", "off", clock);
    assert map["A" := a, "B" := b] - {"A"} == reg3;
    ScenarioClaims(a, b, clock.writeAt);
    assert IsWinner(Claims(reg3), "thinking");
    ResolveIs(reg3, "thinking");
  }

  /**
   * Two sessions: A asks for attention, B for thinking; A wins. A ends and
   * B's thinking shows; B ends and the light goes off.
   */
  lemma TwoSessionScenario(clock: Clock)
    requires clock.sweepAt <= clock.writeAt
    ensures var r1 := SessionAware(map[], "A", "attention", clock);
            var r2 := SessionAware(r1.registry, "B", "thinking", clock);
            var r3 := SessionAware(r2.registry, "A", "off", clock);
            var r4 := SessionAware(r3.registry, "B", "off", clock);
            && r2.commands == ["attention"]
            && r3.commands == ["thinking"]
            && r4.commands == ["off"]
  {
    var a := Record("attention", clock.writeAt);
    var b := Record("thinking", clock.writeAt);
    StepOnFresh(map[], "A", "attention", clock);
    assert SessionAware(map[], "A", "attention", clock).registry == map["A" := a];
    ScenarioStepB(clock, a, b);
    ScenarioEndA(clock, a, b);
    LastSessionOffGoesDark(map["B" := b], "B", clock);
  }

  /**
   * An unreadable record and a record older than the threshold neither win
   * nor survive: they are removed by the garbage collection of the next
   * session-aware invocation, which goes on normally.
   */
  lemma CorruptAndStaleRecordsScenario(clock: Clock)
    requires clock.sweepAt <= clock.writeAt
    ensures var reg := map["bad" := Corrupt, "old" := Record("permission", clock.sweepAt - StaleThreshold - 1)];
            var run := SessionAware(reg, "me", "thinking", clock);
            && run.registry == map["me" := Record("thinking", clock.writeAt)]
            && run.commands == ["thinking"]
  {
    TablesAgree();
    var reg := map["bad" := Corrupt, "old" := Record("permission", clock.sweepAt - StaleThreshold - 1)];
    assert Cleanup(reg, clock.sweepAt) == map[];
    var after := map["me" := Record("thinking", clock.writeAt)];
    assert Claims(after) == {"thinking"} by {
      assert after["me"].Ok? && StateOf(after["me"]) == "thinking";
    }
    ResolveIs(after, "thinking");
  }

  /** Legacy success shows success and then off, and never reads or writes the registry. */
  lemma LegacySuccessIgnoresRegistry(reg: Registry, clock: Clock)
    ensures Invoke(["success"], reg, clock) == Success(Run(reg, ["success", "off"]))
  {
    TablesAgree();
  }

  /**
   * The empty session id: its file `.json` has no ".json" suffix, so the
   * record is written but never resolved and never collected; the light
   * shows what the other sessions claim.
   */
  lemma EmptySessionIdIsNeverShown(clock: Clock)
    ensures Invoke(["thinking", ""], map[], clock) == Success(Run(map["" := Record("thinking", clock.writeAt)], ["off"]))
  {
    TablesAgree();
    ResolveEmpty();
    var run := SessionAware(map[], "", "thinking", clock);
    assert Cleanup(map[], clock.sweepAt) - {""} == map[];
  }
}
