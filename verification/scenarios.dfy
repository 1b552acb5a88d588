/** Worked circuits: the default layout wired into a loop through the
    switch (open, then closed), the same loop with a wire missing, and two
    batteries sharing one LED. Each search is evaluated one terminal at a
    time with the step lemmas below, which state what the search returns
    at a terminal from what it returns one component further on. */
module Scenarios {
  import opened Circuit
  import opened Placement
  import opened Tracer
  import opened Simulation
  import opened Game

  // ---- One terminal of the search -------------------------------------------

  /** No wire touches `at`: the search fails there. */
  lemma TraceNoWire(st: State, at: Endpoint, target: Endpoint, visited: set<nat>)
    requires Resolves(st) && ConnectedWires(st.wires, at) == []
    ensures Trace(st, at, target, visited) == None
  {
  }

  /** The only wire at `at` reaches the target terminal. */
  lemma TraceHit(st: State, at: Endpoint, target: Endpoint, visited: set<nat>, i: nat)
    requires Resolves(st) && i < |st.wires| && ConnectedWires(st.wires, at) == [i] && i !in visited
    requires Far(st.wires[i], at.compId) == target
    requires !OpenSwitch(Find(st.components, target.compId))
    ensures Trace(st, at, target, visited) == Some([WireItem(i)])
  {
  }

  /** The only wire at `at` leads into an open switch. */
  lemma TraceBlocked(st: State, at: Endpoint, target: Endpoint, visited: set<nat>, i: nat)
    requires Resolves(st) && i < |st.wires| && ConnectedWires(st.wires, at) == [i] && i !in visited
    requires OpenSwitch(Find(st.components, Far(st.wires[i], at.compId).compId))
    ensures Trace(st, at, target, visited) == None
  {
    assert TryEach(st, at, target, visited, [i], 1) == None;
  }

  /** The only wire at `at` leads into a component the search passes: the
      result is the one from the component's other side, with the wire and
      the component put in front. */
  lemma TracePass(st: State, at: Endpoint, target: Endpoint, visited: set<nat>, i: nat, beyond: Option<seq<PathItem>>)
    requires Resolves(st) && i < |st.wires| && ConnectedWires(st.wires, at) == [i] && i !in visited
    requires var nxt := Far(st.wires[i], at.compId);
      && nxt != target
      && !OpenSwitch(Find(st.components, nxt.compId))
      && Trace(st, Endpoint(nxt.compId, Opposite(nxt.side)), target, visited + {i}) == beyond
    ensures Trace(st, at, target, visited) ==
      if beyond.Some? then Some([WireItem(i), CompItem(Far(st.wires[i], at.compId).compId)] + beyond.value)
      else None
  {
    assert TryEach(st, at, target, visited, [i], 1) == None;
  }

  /** Two wires at `at`; the first leads into a component the search
      passes, and the search from its other side succeeds. */
  lemma TracePassFirst(st: State, at: Endpoint, target: Endpoint, visited: set<nat>, i: nat, j: nat, p: seq<PathItem>)
    requires Resolves(st) && i < |st.wires| && ConnectedWires(st.wires, at) == [i, j] && i !in visited
    requires var nxt := Far(st.wires[i], at.compId);
      && nxt != target
      && !OpenSwitch(Find(st.components, nxt.compId))
      && Trace(st, Endpoint(nxt.compId, Opposite(nxt.side)), target, visited + {i}) == Some(p)
    ensures Trace(st, at, target, visited) == Some([WireItem(i), CompItem(Far(st.wires[i], at.compId).compId)] + p)
  {
  }

  /** Two wires at `at`; the first is already on the path, the second
      leads into a component the search passes, and the search from its
      other side succeeds. */
  lemma TraceSkipThenPass(st: State, at: Endpoint, target: Endpoint, visited: set<nat>, i: nat, j: nat, p: seq<PathItem>)
    requires Resolves(st) && j < |st.wires| && ConnectedWires(st.wires, at) == [i, j]
    requires i in visited && j !in visited
    requires var nxt := Far(st.wires[j], at.compId);
      && nxt != target
      && !OpenSwitch(Find(st.components, nxt.compId))
      && Trace(st, Endpoint(nxt.compId, Opposite(nxt.side)), target, visited + {j}) == Some(p)
    ensures Trace(st, at, target, visited) == Some([WireItem(j), CompItem(Far(st.wires[j], at.compId).compId)] + p)
  {
    assert TryEach(st, at, target, visited, [i, j], 0) == TryEach(st, at, target, visited, [i, j], 1);
  }

  /** A state whose component ids are the positions and whose counter is
      the length: the ids are unique and below the counter, and the search
      for id `k` finds position `k`. */
  lemma IdsArePositions(st: State)
    requires forall j :: 0 <= j < |st.components| ==> st.components[j].id == j
    requires st.counter == |st.components|
    ensures IdsBelowCounter(st) && UniqueIds(st.components)
    ensures forall k :: 0 <= k < |st.components| ==> HasId(st.components, k) && Find(st.components, k) == st.components[k]
  {
    forall k | 0 <= k < |st.components|
      ensures HasId(st.components, k) && Find(st.components, k) == st.components[k]
    {
      assert st.components[k].id == k;
    }
  }

  /** Wire ends that are positions of a list whose ids are the positions
      resolve. */
  lemma ResolvesByPositions(st: State)
    requires forall j :: 0 <= j < |st.components| ==> st.components[j].id == j
    requires forall i :: 0 <= i < |st.wires| ==>
      st.wires[i].start.compId < |st.components| && st.wires[i].end.compId < |st.components|
    ensures Resolves(st)
  {
    forall i | 0 <= i < |st.wires|
      ensures HasId(st.components, st.wires[i].start.compId) && HasId(st.components, st.wires[i].end.compId)
    {
      assert st.components[st.wires[i].start.compId].id == st.wires[i].start.compId;
      assert st.components[st.wires[i].end.compId].id == st.wires[i].end.compId;
    }
  }

  // ---- Scenario A: battery, switch and LED in one loop --------------------

  const Bat0 := Component(0, Battery, 50, 50, false, false)
  const Led1 := Component(1, Led, 200, 50, false, false)
  function Sw2(closed: bool): Component { Component(2, Switch, 125, 150, closed, false) }

  /** Battery 0, LED 1 and switch 2 of the default layout, wired
      battery.right to switch.left, switch.right to LED.left and LED.right
      to battery.left. */
  function Loop(closed: bool): State
  {
    State([Bat0, Led1, Sw2(closed)], LoopWires, 3, None)
  }

  const LoopWires: seq<Wire> :=
    [Wire(Endpoint(0, Right), Endpoint(2, Left), false),
     Wire(Endpoint(2, Right), Endpoint(1, Left), false),
     Wire(Endpoint(1, Right), Endpoint(0, Left), false)]

  lemma LoopWiresValid()
    ensures NoSelfWire(LoopWires) && OnePerPair(LoopWires)
  {
    forall i, j | 0 <= i < j < |LoopWires|
      ensures !SamePair(LoopWires[j], LoopWires[i].start.compId, LoopWires[i].end.compId)
    {
    }
  }

  /** What the searches in the loop read, stated about any state: reasoning
      from these facts rather than from the literal state keeps each step
      small. */
  ghost predicate LoopShape(st: State, closed: bool)
  {
    && Resolves(st)
    && |st.wires| == 3
    && st.wires[0] == Wire(Endpoint(0, Right), Endpoint(2, Left), false)
    && st.wires[1] == Wire(Endpoint(2, Right), Endpoint(1, Left), false)
    && st.wires[2] == Wire(Endpoint(1, Right), Endpoint(0, Left), false)
    && HasId(st.components, 0) && HasId(st.components, 1) && HasId(st.components, 2)
    && Find(st.components, 0) == Bat0 && Find(st.components, 1) == Led1 && Find(st.components, 2) == Sw2(closed)
    && ConnectedWires(st.wires, Endpoint(0, Right)) == [0]
    && ConnectedWires(st.wires, Endpoint(2, Right)) == [1]
    && ConnectedWires(st.wires, Endpoint(1, Right)) == [2]
  }

  /** The component list of the loop, position by position. */
  ghost predicate LoopParts(st: State, closed: bool)
  {
    |st.components| == 3 && st.components[0] == Bat0 && st.components[1] == Led1 && st.components[2] == Sw2(closed)
  }

  lemma LoopIds(closed: bool)
    ensures IdsBelowCounter(Loop(closed)) && UniqueIds(Loop(closed).components)
    ensures forall k :: 0 <= k < 3 ==> HasId(Loop(closed).components, k) && Find(Loop(closed).components, k) == Loop(closed).components[k]
  {
    IdsArePositions(Loop(closed));
  }

  lemma LoopValid(closed: bool)
    ensures Valid(Loop(closed)) && LoopParts(Loop(closed), closed)
  {
    LoopIds(closed);
    LoopWiresValid();
  }

  lemma LoopConnected0(closed: bool)
    ensures ConnectedWires(Loop(closed).wires, Endpoint(0, Right)) == [0]
  {
    ConnectedWiresExactly(Loop(closed).wires, Endpoint(0, Right), [0]);
  }

  lemma LoopConnected1(closed: bool)
    ensures ConnectedWires(Loop(closed).wires, Endpoint(1, Right)) == [2]
  {
    ConnectedWiresExactly(Loop(closed).wires, Endpoint(1, Right), [2]);
  }

  lemma LoopConnected2(closed: bool)
    ensures ConnectedWires(Loop(closed).wires, Endpoint(2, Right)) == [1]
  {
    ConnectedWiresExactly(Loop(closed).wires, Endpoint(2, Right), [1]);
  }

  lemma LoopShapeHolds(closed: bool)
    ensures Valid(Loop(closed)) && LoopParts(Loop(closed), closed) && LoopShape(Loop(closed), closed)
  {
    LoopValid(closed);
    LoopIds(closed);
    LoopConnected0(closed);
    LoopConnected1(closed);
    LoopConnected2(closed);
  }

  /** A reset from the initial session and the three wiring gestures,
      without their simulation passes, give exactly the loop with the
      switch open. */
  lemma LoopIsBuiltByHandlers()
    ensures var s0 := ResetGame(Initial);
      var s1 := FinishWiring(StartWiring(s0, 0, Right), 2, Left);
      var s2 := FinishWiring(StartWiring(s1, 2, Right), 1, Left);
      var s3 := FinishWiring(StartWiring(s2, 1, Right), 0, Left);
      s3 == Loop(false)
  {
    var s0 := ResetGame(Initial);
    var s1 := FinishWiring(StartWiring(s0, 0, Right), 2, Left);
    assert s1.wires == [Wire(Endpoint(0, Right), Endpoint(2, Left), false)];
    var s2 := FinishWiring(StartWiring(s1, 2, Right), 1, Left);
    assert !SamePair(s1.wires[0], 2, 1);
    assert !HasLink(s1.wires, 2, 1);
    assert s2.wires == s1.wires + [Wire(Endpoint(2, Right), Endpoint(1, Left), false)];
    var s3 := FinishWiring(StartWiring(s2, 1, Right), 0, Left);
    assert !SamePair(s2.wires[0], 1, 0) && !SamePair(s2.wires[1], 1, 0);
    assert !HasLink(s2.wires, 1, 0);
    assert s3.wires == s2.wires + [Wire(Endpoint(1, Right), Endpoint(0, Left), false)];
  }

  /** With the switch open the battery's only wire leads into the open
      switch, and the search fails. */
  lemma LoopOpenSearch(st: State)
    requires Resolves(st) && |st.wires| == 3
    requires st.wires[0] == Wire(Endpoint(0, Right), Endpoint(2, Left), false)
    requires Find(st.components, 2) == Sw2(false)
    requires ConnectedWires(st.wires, Endpoint(0, Right)) == [0]
    ensures FoundPath(st, Bat0) == None
  {
    TraceBlocked(st, Endpoint(0, Right), Endpoint(0, Left), {}, 0);
  }

  /** The last step of the closed loop: from the LED back to the battery. */
  lemma LoopClosedFromLed(st: State)
    requires Resolves(st) && |st.wires| == 3
    requires st.wires[2] == Wire(Endpoint(1, Right), Endpoint(0, Left), false)
    requires Find(st.components, 0) == Bat0
    requires ConnectedWires(st.wires, Endpoint(1, Right)) == [2]
    ensures Trace(st, Endpoint(1, Right), Endpoint(0, Left), {0, 1}) == Some([WireItem(2)])
  {
    TraceHit(st, Endpoint(1, Right), Endpoint(0, Left), {0, 1}, 2);
  }

  /** From the closed switch through the LED. */
  lemma LoopClosedFromSwitch(st: State)
    requires Resolves(st) && |st.wires| == 3
    requires st.wires[1] == Wire(Endpoint(2, Right), Endpoint(1, Left), false)
    requires Find(st.components, 1) == Led1
    requires ConnectedWires(st.wires, Endpoint(2, Right)) == [1]
    requires Trace(st, Endpoint(1, Right), Endpoint(0, Left), {0, 1}) == Some([WireItem(2)])
    ensures Trace(st, Endpoint(2, Right), Endpoint(0, Left), {0}) == Some([WireItem(1), CompItem(1), WireItem(2)])
  {
    assert {0} + {1} == {0, 1};
    TracePass(st, Endpoint(2, Right), Endpoint(0, Left), {0}, 1, Some([WireItem(2)]));
    assert [WireItem(1), CompItem(1)] + [WireItem(2)] == [WireItem(1), CompItem(1), WireItem(2)];
  }

  /** From the battery through the closed switch. */
  lemma LoopClosedFromBattery(st: State)
    requires Resolves(st) && |st.wires| == 3
    requires st.wires[0] == Wire(Endpoint(0, Right), Endpoint(2, Left), false)
    requires Find(st.components, 2) == Sw2(true)
    requires ConnectedWires(st.wires, Endpoint(0, Right)) == [0]
    requires Trace(st, Endpoint(2, Right), Endpoint(0, Left), {0}) == Some([WireItem(1), CompItem(1), WireItem(2)])
    ensures FoundPath(st, Bat0) == Some([WireItem(0), CompItem(2), WireItem(1), CompItem(1), WireItem(2)])
  {
    assert {} + {0} == {0};
    TracePass(st, Endpoint(0, Right), Endpoint(0, Left), {}, 0, Some([WireItem(1), CompItem(1), WireItem(2)]));
    assert [WireItem(0), CompItem(2)] + [WireItem(1), CompItem(1), WireItem(2)]
        == [WireItem(0), CompItem(2), WireItem(1), CompItem(1), WireItem(2)];
  }

  /** With the switch closed the search runs battery, switch, LED, battery. */
  lemma LoopClosedSearch(st: State)
    requires LoopShape(st, true)
    ensures FoundPath(st, Bat0) == Some([WireItem(0), CompItem(2), WireItem(1), CompItem(1), WireItem(2)])
  {
    LoopClosedFromLed(st);
    LoopClosedFromSwitch(st);
    LoopClosedFromBattery(st);
  }

  /** With no path for its battery, the loop with its LED off and its
      wires inactive is already what a simulation pass leaves. */
  lemma LoopOpenIsDark(st: State)
    requires Resolves(st) && LoopParts(st, false)
    requires FoundPath(st, Bat0) == None
    requires forall i :: 0 <= i < |st.wires| ==> !st.wires[i].active
    ensures Simulate(st) == st
  {
    assert forall j :: 0 <= j < |st.components| && st.components[j].kind == Battery ==> j == 0;
    NoCircuitIsDark(st);
    SimulateFixedPoint(st);
  }

  /** With the battery's path running through the LED and all three wires,
      a pass energises them. */
  lemma LoopClosedIsLit(st: State)
    requires Resolves(st) && LoopParts(st, true) && |st.wires| == 3
    requires FoundPath(st, Bat0) == Some([WireItem(0), CompItem(2), WireItem(1), CompItem(1), WireItem(2)])
    ensures var r := Simulate(st);
      r.components[1].on && r.wires[0].active && r.wires[1].active && r.wires[2].active
  {
    assert Carries(st, 0, CompItem(1));
    assert Carries(st, 0, WireItem(0)) && Carries(st, 0, WireItem(1)) && Carries(st, 0, WireItem(2));
  }

  lemma LoopToggle(closed: bool)
    ensures ToggleSwitch(Loop(closed), 2) == Loop(!closed)
  {
    LoopIds(closed);
    ToggleFlipsOnlyThatSwitch(Loop(closed), 2);
    var r := ToggleSwitch(Loop(closed), 2);
    assert r.components == Loop(!closed).components by {
      assert r.components[0] == Bat0 && r.components[1] == Led1 && r.components[2] == Sw2(!closed);
    }
  }

  /** Pressing the switch of the dark loop closes it and lights the LED and
      all three wires. */
  lemma PressClosesLoop()
    ensures Resolves(Loop(false))
    ensures var on := OnSwitchPress(Loop(false), 2);
      && on.components[2].closed
      && on.components[1].on
      && on.wires[0].active && on.wires[1].active && on.wires[2].active
  {
    LoopShapeHolds(false);
    LoopShapeHolds(true);
    LoopToggle(false);
    LoopClosedSearch(Loop(true));
    LoopClosedIsLit(Loop(true));
  }

  /** The dark loop meets what the search and the pass over it need. */
  lemma LoopOpenFacts()
    ensures LoopShape(Loop(false), false) && LoopParts(Loop(false), false) && UniqueIds(Loop(false).components)
    ensures forall i :: 0 <= i < |Loop(false).wires| ==> !Loop(false).wires[i].active
  {
    LoopShapeHolds(false);
  }

  /** Pressing the switch twice returns the dark loop to itself. */
  lemma PressReopensLoop(st: State)
    requires LoopShape(st, false) && LoopParts(st, false) && UniqueIds(st.components)
    requires forall i :: 0 <= i < |st.wires| ==> !st.wires[i].active
    ensures Resolves(OnSwitchPress(st, 2)) && OnSwitchPress(OnSwitchPress(st, 2), 2) == st
  {
    LoopOpenSearch(st);
    LoopOpenIsDark(st);
    SwitchPressTwice(st, 2);
  }

  /** Scenario A. Pressing the switch of the dark loop closes it and lights
      the LED and all three wires; pressing it again opens it and
      everything goes dark. */
  lemma ScenarioSwitchGatesLoop()
    ensures Resolves(Loop(false))
    ensures var on := OnSwitchPress(Loop(false), 2);
      && on.components[2].closed
      && on.components[1].on
      && on.wires[0].active && on.wires[1].active && on.wires[2].active
    ensures var on := OnSwitchPress(Loop(false), 2);
      Resolves(on) && OnSwitchPress(on, 2) == Loop(false)
  {
    PressClosesLoop();
    LoopOpenFacts();
    PressReopensLoop(Loop(false));
  }

  // ---- Scenario B: the closed loop with the switch-to-LED wire missing ----

  /** The default layout wired battery.right to switch.left and LED.right
      to battery.left, with the switch closed. */
  const Broken: State :=
    State([Bat0, Led1, Sw2(true)],
          [Wire(Endpoint(0, Right), Endpoint(2, Left), false),
           Wire(Endpoint(1, Right), Endpoint(0, Left), false)],
          3, None)

  ghost predicate BrokenShape(st: State)
  {
    && Resolves(st)
    && |st.wires| == 2
    && st.wires[0] == Wire(Endpoint(0, Right), Endpoint(2, Left), false)
    && HasId(st.components, 2) && Find(st.components, 2) == Sw2(true)
    && ConnectedWires(st.wires, Endpoint(0, Right)) == [0]
    && ConnectedWires(st.wires, Endpoint(2, Right)) == []
  }

  lemma BrokenIds()
    ensures IdsBelowCounter(Broken) && UniqueIds(Broken.components)
    ensures forall k :: 0 <= k < 3 ==> HasId(Broken.components, k) && Find(Broken.components, k) == Broken.components[k]
  {
    IdsArePositions(Broken);
  }

  lemma BrokenWiresValid()
    ensures NoSelfWire(Broken.wires) && OnePerPair(Broken.wires)
    ensures Resolves(Broken)
  {
    var ws := Broken.wires;
    forall i, j | 0 <= i < j < |ws|
      ensures !SamePair(ws[j], ws[i].start.compId, ws[i].end.compId)
    {
    }
    ResolvesByPositions(Broken);
  }

  lemma BrokenConnected()
    ensures ConnectedWires(Broken.wires, Endpoint(0, Right)) == [0]
    ensures ConnectedWires(Broken.wires, Endpoint(2, Right)) == []
  {
    ConnectedWiresExactly(Broken.wires, Endpoint(0, Right), [0]);
    ConnectedWiresExactly(Broken.wires, Endpoint(2, Right), []);
  }

  lemma BrokenShapeHolds()
    ensures Valid(Broken) && LoopParts(Broken, true) && BrokenShape(Broken)
  {
    BrokenIds();
    BrokenWiresValid();
    BrokenConnected();
  }

  /** The reset layout, the two remaining wiring gestures and a switch
      toggle, without simulation passes, give exactly this state. */
  lemma BrokenIsBuiltByHandlers()
    ensures var s0 := ResetGame(Initial);
      var s1 := FinishWiring(StartWiring(s0, 0, Right), 2, Left);
      var s2 := FinishWiring(StartWiring(s1, 1, Right), 0, Left);
      ToggleSwitch(s2, 2) == Broken
  {
    var s0 := ResetGame(Initial);
    var s1 := FinishWiring(StartWiring(s0, 0, Right), 2, Left);
    assert s1.wires == [Wire(Endpoint(0, Right), Endpoint(2, Left), false)];
    var s2 := FinishWiring(StartWiring(s1, 1, Right), 0, Left);
    assert !SamePair(s1.wires[0], 1, 0);
    assert !HasLink(s1.wires, 1, 0);
    assert s2.wires == s1.wires + [Wire(Endpoint(1, Right), Endpoint(0, Left), false)];
    assert FindIndex(s2.components, 2) == Some(2) by {
      assert s2.components[0].id != 2 && s2.components[1].id != 2;
    }
    assert s2.components[2 := Sw2(true)] == Broken.components;
  }

  /** The battery's only wire leads through the closed switch to a
      terminal no wire leaves, and the search backtracks out of it. */
  lemma BrokenSearch(st: State)
    requires BrokenShape(st)
    ensures FoundPath(st, Bat0) == None
  {
    TraceNoWire(st, Endpoint(2, Right), Endpoint(0, Left), {0});
    assert {} + {0} == {0};
    TracePass(st, Endpoint(0, Right), Endpoint(0, Left), {}, 0, None);
  }

  /** With no path for its battery, a pass over the broken loop leaves
      the LED off and every wire inactive. */
  lemma BrokenIsDark(st: State)
    requires Resolves(st) && LoopParts(st, true)
    requires FoundPath(st, Bat0) == None
    ensures var r := Simulate(st);
      !r.components[1].on && forall i :: 0 <= i < |r.wires| ==> !r.wires[i].active
  {
    assert forall j :: 0 <= j < |st.components| && st.components[j].kind == Battery ==> j == 0;
    NoCircuitIsDark(st);
  }

  /** Scenario B. Even with the switch closed, the LED stays off and no
      wire is active. */
  lemma ScenarioMissingWire()
    ensures Resolves(Broken)
    ensures var r := Simulate(Broken);
      !r.components[1].on && !r.wires[0].active && !r.wires[1].active
  {
    BrokenShapeHolds();
    BrokenSearch(Broken);
    BrokenIsDark(Broken);
  }

  // ---- Scenario C: two batteries sharing one LED --------------------------

  const BatA := Component(0, Battery, 50, 50, false, false)
  const BatB := Component(1, Battery, 50, 250, false, false)
  const Led2 := Component(2, Led, 200, 150, false, false)
  const Sw3 := Component(3, Switch, 350, 50, true, false)
  const Sw4 := Component(4, Switch, 350, 250, true, false)

  /** Batteries 0 and 1 each close a loop through LED 2: battery 0 via
      closed switch 3, battery 1 via closed switch 4. Both loops enter the
      LED at its left side and leave it by its right side. */
  const Twin: State :=
    State([BatA, BatB, Led2, Sw3, Sw4],
          [Wire(Endpoint(0, Right), Endpoint(2, Left), false),
           Wire(Endpoint(2, Right), Endpoint(3, Left), false),
           Wire(Endpoint(3, Right), Endpoint(0, Left), false),
           Wire(Endpoint(1, Right), Endpoint(2, Left), false),
           Wire(Endpoint(2, Right), Endpoint(4, Left), false),
           Wire(Endpoint(4, Right), Endpoint(1, Left), false)],
          5, None)

  ghost predicate TwinShape(st: State)
  {
    && Resolves(st)
    && |st.wires| == 6
    && st.wires[0] == Wire(Endpoint(0, Right), Endpoint(2, Left), false)
    && st.wires[1] == Wire(Endpoint(2, Right), Endpoint(3, Left), false)
    && st.wires[2] == Wire(Endpoint(3, Right), Endpoint(0, Left), false)
    && st.wires[3] == Wire(Endpoint(1, Right), Endpoint(2, Left), false)
    && st.wires[4] == Wire(Endpoint(2, Right), Endpoint(4, Left), false)
    && st.wires[5] == Wire(Endpoint(4, Right), Endpoint(1, Left), false)
    && HasId(st.components, 0) && HasId(st.components, 1) && HasId(st.components, 2)
    && HasId(st.components, 3) && HasId(st.components, 4)
    && Find(st.components, 0) == BatA && Find(st.components, 1) == BatB && Find(st.components, 2) == Led2
    && Find(st.components, 3) == Sw3 && Find(st.components, 4) == Sw4
    && ConnectedWires(st.wires, Endpoint(0, Right)) == [0]
    && ConnectedWires(st.wires, Endpoint(1, Right)) == [3]
    && ConnectedWires(st.wires, Endpoint(2, Right)) == [1, 4]
    && ConnectedWires(st.wires, Endpoint(3, Right)) == [2]
    && ConnectedWires(st.wires, Endpoint(4, Right)) == [5]
  }

  /** The component list of the two-battery circuit, position by position. */
  ghost predicate TwinParts(st: State)
  {
    && |st.components| == 5
    && st.components[0] == BatA && st.components[1] == BatB && st.components[2] == Led2
    && st.components[3] == Sw3 && st.components[4] == Sw4
  }

  lemma TwinIds()
    ensures IdsBelowCounter(Twin) && UniqueIds(Twin.components) && TwinParts(Twin)
    ensures forall k :: 0 <= k < 5 ==> HasId(Twin.components, k) && Find(Twin.components, k) == Twin.components[k]
  {
    IdsArePositions(Twin);
  }

  lemma TwinWires()
    ensures NoSelfWire(Twin.wires) && OnePerPair(Twin.wires)
  {
    var ws := Twin.wires;
    forall i, j | 0 <= i < j < |ws|
      ensures !SamePair(ws[j], ws[i].start.compId, ws[i].end.compId)
    {
    }
  }

  lemma TwinResolves()
    ensures Resolves(Twin)
  {
    var ws := Twin.wires;
    forall i | 0 <= i < |ws|
      ensures ws[i].start.compId < 5 && ws[i].end.compId < 5
    {
    }
    ResolvesByPositions(Twin);
  }

  lemma TwinValid()
    ensures Valid(Twin) && TwinParts(Twin)
  {
    TwinIds();
    TwinWires();
    TwinResolves();
  }

  lemma TwinConnected0()
    ensures ConnectedWires(Twin.wires, Endpoint(0, Right)) == [0]
  {
    ConnectedWiresExactly(Twin.wires, Endpoint(0, Right), [0]);
  }

  lemma TwinConnected1()
    ensures ConnectedWires(Twin.wires, Endpoint(1, Right)) == [3]
  {
    ConnectedWiresExactly(Twin.wires, Endpoint(1, Right), [3]);
  }

  lemma TwinConnected2()
    ensures ConnectedWires(Twin.wires, Endpoint(2, Right)) == [1, 4]
  {
    ConnectedWiresExactly(Twin.wires, Endpoint(2, Right), [1, 4]);
  }

  lemma TwinConnected3()
    ensures ConnectedWires(Twin.wires, Endpoint(3, Right)) == [2]
  {
    ConnectedWiresExactly(Twin.wires, Endpoint(3, Right), [2]);
  }

  lemma TwinConnected4()
    ensures ConnectedWires(Twin.wires, Endpoint(4, Right)) == [5]
  {
    ConnectedWiresExactly(Twin.wires, Endpoint(4, Right), [5]);
  }

  lemma TwinShapeHolds()
    ensures Valid(Twin) && TwinParts(Twin) && TwinShape(Twin)
  {
    TwinValid();
    TwinIds();
    TwinConnected0();
    TwinConnected1();
    TwinConnected2();
    TwinConnected3();
    TwinConnected4();
  }

  /** Battery 0's search, last step: from switch 3 back to battery 0. */
  lemma TwinAFromSwitch(st: State)
    requires Resolves(st) && |st.wires| == 6
    requires st.wires[2] == Wire(Endpoint(3, Right), Endpoint(0, Left), false)
    requires Find(st.components, 0) == BatA
    requires ConnectedWires(st.wires, Endpoint(3, Right)) == [2]
    ensures Trace(st, Endpoint(3, Right), Endpoint(0, Left), {0, 1}) == Some([WireItem(2)])
  {
    TraceHit(st, Endpoint(3, Right), Endpoint(0, Left), {0, 1}, 2);
  }

  /** Battery 0's search, from the LED: wire 1, towards switch 3, is the
      first wire there. */
  lemma TwinAFromLed(st: State)
    requires Resolves(st) && |st.wires| == 6
    requires st.wires[1] == Wire(Endpoint(2, Right), Endpoint(3, Left), false)
    requires Find(st.components, 3) == Sw3
    requires ConnectedWires(st.wires, Endpoint(2, Right)) == [1, 4]
    requires Trace(st, Endpoint(3, Right), Endpoint(0, Left), {0, 1}) == Some([WireItem(2)])
    ensures Trace(st, Endpoint(2, Right), Endpoint(0, Left), {0}) == Some([WireItem(1), CompItem(3), WireItem(2)])
  {
    assert {0} + {1} == {0, 1};
    TracePassFirst(st, Endpoint(2, Right), Endpoint(0, Left), {0}, 1, 4, [WireItem(2)]);
    assert [WireItem(1), CompItem(3)] + [WireItem(2)] == [WireItem(1), CompItem(3), WireItem(2)];
  }

  /** Battery 0's search, first step: from battery 0 into the LED. */
  lemma TwinAFromBattery(st: State)
    requires Resolves(st) && |st.wires| == 6
    requires st.wires[0] == Wire(Endpoint(0, Right), Endpoint(2, Left), false)
    requires Find(st.components, 2) == Led2
    requires ConnectedWires(st.wires, Endpoint(0, Right)) == [0]
    requires Trace(st, Endpoint(2, Right), Endpoint(0, Left), {0}) == Some([WireItem(1), CompItem(3), WireItem(2)])
    ensures FoundPath(st, BatA) == Some([WireItem(0), CompItem(2), WireItem(1), CompItem(3), WireItem(2)])
  {
    assert {} + {0} == {0};
    TracePass(st, Endpoint(0, Right), Endpoint(0, Left), {}, 0, Some([WireItem(1), CompItem(3), WireItem(2)]));
    assert [WireItem(0), CompItem(2)] + [WireItem(1), CompItem(3), WireItem(2)]
        == [WireItem(0), CompItem(2), WireItem(1), CompItem(3), WireItem(2)];
  }

  /** Battery 0's search: its own loop, through the LED and switch 3. */
  lemma TwinSearchA(st: State)
    requires TwinShape(st)
    ensures FoundPath(st, BatA) == Some([WireItem(0), CompItem(2), WireItem(1), CompItem(3), WireItem(2)])
  {
    TwinAFromSwitch(st);
    TwinAFromLed(st);
    TwinAFromBattery(st);
  }

  /** Battery 1's search, last step: from switch 4 back to battery 1. */
  lemma TwinBFromSwitch(st: State)
    requires Resolves(st) && |st.wires| == 6
    requires st.wires[5] == Wire(Endpoint(4, Right), Endpoint(1, Left), false)
    requires Find(st.components, 1) == BatB
    requires ConnectedWires(st.wires, Endpoint(4, Right)) == [5]
    ensures Trace(st, Endpoint(4, Right), Endpoint(1, Left), {0, 1, 2, 3, 4}) == Some([WireItem(5)])
  {
    TraceHit(st, Endpoint(4, Right), Endpoint(1, Left), {0, 1, 2, 3, 4}, 5);
  }

  /** Battery 1's search, back in the LED after battery 0's loop: wire 1 is
      on the path, so wire 4 is taken, towards switch 4. */
  lemma TwinBLedAgain(st: State)
    requires Resolves(st) && |st.wires| == 6
    requires st.wires[4] == Wire(Endpoint(2, Right), Endpoint(4, Left), false)
    requires Find(st.components, 4) == Sw4
    requires ConnectedWires(st.wires, Endpoint(2, Right)) == [1, 4]
    requires Trace(st, Endpoint(4, Right), Endpoint(1, Left), {0, 1, 2, 3, 4}) == Some([WireItem(5)])
    ensures Trace(st, Endpoint(2, Right), Endpoint(1, Left), {0, 1, 2, 3})
         == Some([WireItem(4), CompItem(4), WireItem(5)])
  {
    assert {0, 1, 2, 3} + {4} == {0, 1, 2, 3, 4};
    TraceSkipThenPass(st, Endpoint(2, Right), Endpoint(1, Left), {0, 1, 2, 3}, 1, 4, [WireItem(5)]);
    assert [WireItem(4), CompItem(4)] + [WireItem(5)] == [WireItem(4), CompItem(4), WireItem(5)];
  }

  /** Battery 1's search, leaving battery 0 by its positive terminal. */
  lemma TwinBThroughA(st: State)
    requires Resolves(st) && |st.wires| == 6
    requires st.wires[0] == Wire(Endpoint(0, Right), Endpoint(2, Left), false)
    requires Find(st.components, 2) == Led2
    requires ConnectedWires(st.wires, Endpoint(0, Right)) == [0]
    requires Trace(st, Endpoint(2, Right), Endpoint(1, Left), {0, 1, 2, 3})
          == Some([WireItem(4), CompItem(4), WireItem(5)])
    ensures Trace(st, Endpoint(0, Right), Endpoint(1, Left), {1, 2, 3})
         == Some([WireItem(0), CompItem(2), WireItem(4), CompItem(4), WireItem(5)])
  {
    assert {1, 2, 3} + {0} == {0, 1, 2, 3};
    TracePass(st, Endpoint(0, Right), Endpoint(1, Left), {1, 2, 3}, 0, Some([WireItem(4), CompItem(4), WireItem(5)]));
    assert [WireItem(0), CompItem(2)] + [WireItem(4), CompItem(4), WireItem(5)]
        == [WireItem(0), CompItem(2), WireItem(4), CompItem(4), WireItem(5)];
  }

  /** Battery 1's search, leaving switch 3 towards battery 0. */
  lemma TwinBSwitch(st: State)
    requires Resolves(st) && |st.wires| == 6
    requires st.wires[2] == Wire(Endpoint(3, Right), Endpoint(0, Left), false)
    requires Find(st.components, 0) == BatA
    requires ConnectedWires(st.wires, Endpoint(3, Right)) == [2]
    requires Trace(st, Endpoint(0, Right), Endpoint(1, Left), {1, 2, 3})
          == Some([WireItem(0), CompItem(2), WireItem(4), CompItem(4), WireItem(5)])
    ensures Trace(st, Endpoint(3, Right), Endpoint(1, Left), {1, 3})
         == Some([WireItem(2), CompItem(0), WireItem(0), CompItem(2), WireItem(4), CompItem(4), WireItem(5)])
  {
    assert {1, 3} + {2} == {1, 2, 3};
    TracePass(st, Endpoint(3, Right), Endpoint(1, Left), {1, 3}, 2,
              Some([WireItem(0), CompItem(2), WireItem(4), CompItem(4), WireItem(5)]));
    assert [WireItem(2), CompItem(0)] + [WireItem(0), CompItem(2), WireItem(4), CompItem(4), WireItem(5)]
        == [WireItem(2), CompItem(0), WireItem(0), CompItem(2), WireItem(4), CompItem(4), WireItem(5)];
  }

  /** Battery 1's search, first time in the LED: wire 1, towards switch 3,
      is the first wire there. */
  lemma TwinBLed(st: State)
    requires Resolves(st) && |st.wires| == 6
    requires st.wires[1] == Wire(Endpoint(2, Right), Endpoint(3, Left), false)
    requires Find(st.components, 3) == Sw3
    requires ConnectedWires(st.wires, Endpoint(2, Right)) == [1, 4]
    requires Trace(st, Endpoint(3, Right), Endpoint(1, Left), {1, 3})
          == Some([WireItem(2), CompItem(0), WireItem(0), CompItem(2), WireItem(4), CompItem(4), WireItem(5)])
    ensures Trace(st, Endpoint(2, Right), Endpoint(1, Left), {3})
         == Some([WireItem(1), CompItem(3), WireItem(2), CompItem(0), WireItem(0), CompItem(2),
                  WireItem(4), CompItem(4), WireItem(5)])
  {
    var p := [WireItem(2), CompItem(0), WireItem(0), CompItem(2), WireItem(4), CompItem(4), WireItem(5)];
    assert {3} + {1} == {1, 3};
    TracePassFirst(st, Endpoint(2, Right), Endpoint(1, Left), {3}, 1, 4, p);
    assert [WireItem(1), CompItem(3)] + p
        == [WireItem(1), CompItem(3), WireItem(2), CompItem(0), WireItem(0), CompItem(2),
            WireItem(4), CompItem(4), WireItem(5)];
  }

  /** Battery 1's search, first step: from battery 1 into the LED. */
  lemma TwinBFromBattery(st: State)
    requires Resolves(st) && |st.wires| == 6
    requires st.wires[3] == Wire(Endpoint(1, Right), Endpoint(2, Left), false)
    requires Find(st.components, 2) == Led2
    requires ConnectedWires(st.wires, Endpoint(1, Right)) == [3]
    requires Trace(st, Endpoint(2, Right), Endpoint(1, Left), {3})
          == Some([WireItem(1), CompItem(3), WireItem(2), CompItem(0), WireItem(0), CompItem(2),
                   WireItem(4), CompItem(4), WireItem(5)])
    ensures FoundPath(st, BatB) == Some([WireItem(3), CompItem(2), WireItem(1), CompItem(3),
                                          WireItem(2), CompItem(0), WireItem(0), CompItem(2),
                                          WireItem(4), CompItem(4), WireItem(5)])
  {
    var p := [WireItem(1), CompItem(3), WireItem(2), CompItem(0), WireItem(0), CompItem(2),
              WireItem(4), CompItem(4), WireItem(5)];
    assert {} + {3} == {3};
    TracePass(st, Endpoint(1, Right), Endpoint(1, Left), {}, 3, Some(p));
    assert [WireItem(3), CompItem(2)] + p
        == [WireItem(3), CompItem(2), WireItem(1), CompItem(3),
            WireItem(2), CompItem(0), WireItem(0), CompItem(2),
            WireItem(4), CompItem(4), WireItem(5)];
  }

  /** Battery 1's search. The first wire out of the LED's right side is
      battery 0's, so the path found runs round battery 0's loop, through
      battery 0 itself, and only then round battery 1's own loop. */
  lemma TwinSearchB(st: State)
    requires TwinShape(st)
    ensures FoundPath(st, BatB) == Some([WireItem(3), CompItem(2), WireItem(1), CompItem(3),
                                          WireItem(2), CompItem(0), WireItem(0), CompItem(2),
                                          WireItem(4), CompItem(4), WireItem(5)])
  {
    TwinBFromSwitch(st);
    TwinBLedAgain(st);
    TwinBThroughA(st);
    TwinBSwitch(st);
    TwinBLed(st);
    TwinBFromBattery(st);
  }

  /** Battery 0's path carries the LED and wires 0 to 2. */
  lemma TwinCarriesA(st: State)
    requires Resolves(st) && |st.components| == 5 && st.components[0] == BatA
    requires FoundPath(st, BatA) == Some([WireItem(0), CompItem(2), WireItem(1), CompItem(3), WireItem(2)])
    ensures Carries(st, 0, CompItem(2))
    ensures Carries(st, 0, WireItem(0)) && Carries(st, 0, WireItem(1)) && Carries(st, 0, WireItem(2))
  {
  }

  /** Battery 1's path carries the LED, battery 0 and wires 3 to 5. */
  lemma TwinCarriesB(st: State)
    requires Resolves(st) && |st.components| == 5 && st.components[1] == BatB
    requires FoundPath(st, BatB) == Some([WireItem(3), CompItem(2), WireItem(1), CompItem(3),
                                          WireItem(2), CompItem(0), WireItem(0), CompItem(2),
                                          WireItem(4), CompItem(4), WireItem(5)])
    ensures Carries(st, 1, CompItem(2)) && Carries(st, 1, CompItem(0))
    ensures Carries(st, 1, WireItem(3)) && Carries(st, 1, WireItem(4)) && Carries(st, 1, WireItem(5))
  {
  }

  /** Both searches reach the LED, and between them every wire. */
  lemma TwinCarries(st: State)
    requires TwinShape(st) && TwinParts(st)
    ensures Carries(st, 0, CompItem(2)) && Carries(st, 1, CompItem(2))
    ensures Carries(st, 1, CompItem(0))
    ensures Carries(st, 0, WireItem(0)) && Carries(st, 0, WireItem(1)) && Carries(st, 0, WireItem(2))
    ensures Carries(st, 1, WireItem(3)) && Carries(st, 1, WireItem(4)) && Carries(st, 1, WireItem(5))
  {
    TwinSearchA(st);
    TwinSearchB(st);
    TwinCarriesA(st);
    TwinCarriesB(st);
  }

  /** When the two paths carry the LED and the six wires, a pass lights
      the LED and every wire. */
  lemma TwinIsLit(st: State)
    requires Resolves(st) && TwinParts(st) && |st.wires| == 6
    requires Carries(st, 0, CompItem(2))
    requires Carries(st, 0, WireItem(0)) && Carries(st, 0, WireItem(1)) && Carries(st, 0, WireItem(2))
    requires Carries(st, 1, WireItem(3)) && Carries(st, 1, WireItem(4)) && Carries(st, 1, WireItem(5))
    ensures var r := Simulate(st);
      && r.components[2].on
      && forall i :: 0 <= i < |r.wires| ==> r.wires[i].active
  {
    assert Lit(st, 2);
    forall i | 0 <= i < |st.wires|
      ensures Live(st, i)
    {
      if i < 3 {
        assert Carries(st, 0, WireItem(i));
      } else {
        assert Carries(st, 1, WireItem(i));
      }
    }
  }

  /** Scenario C. Each battery's search on its own reaches the LED, so the
      LED is on and every wire of both loops is active; battery 1's path
      passes through battery 0. */
  lemma ScenarioTwoBatteries()
    ensures Resolves(Twin)
    ensures Carries(Twin, 0, CompItem(2)) && Carries(Twin, 1, CompItem(2))
    ensures Carries(Twin, 1, CompItem(0))
    ensures var r := Simulate(Twin);
      && r.components[2].on
      && forall i :: 0 <= i < |r.wires| ==> r.wires[i].active
  {
    TwinShapeHolds();
    TwinCarries(Twin);
    TwinIsLit(Twin);
  }
}
