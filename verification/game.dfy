/** The game's event handlers as transitions on the session record: each
    one is the state change of module Placement followed, where the game
    does so, by a simulation pass. Placing a component, dragging, pressing
    a terminal and resetting do not re-simulate; toggling a switch always
    does, and releasing on a terminal does when it added a wire. */
module Game {
  import opened Circuit
  import opened Placement
  import opened Tracer
  import opened Simulation

  /** Pressing the toggle of switch `id`: flip it, then re-simulate, so
      that every LED is on, and every wire active, exactly when it lies on
      a path found in the toggled circuit. */
  function OnSwitchPress(st: State, id: nat): (r: State)
    requires Resolves(st)
    ensures Resolves(ToggleSwitch(st, id))
    ensures OnlyEnergyChanged(ToggleSwitch(st, id), r)
    ensures forall j :: 0 <= j < |r.components| ==>
      var t := ToggleSwitch(st, id);
      r.components[j].on == if t.components[j].kind == Led then Lit(t, t.components[j].id) else t.components[j].on
    ensures forall i :: 0 <= i < |r.wires| ==> r.wires[i].active == Live(ToggleSwitch(st, id), i)
  {
    var t := ToggleSwitch(st, id);
    ToggleKeepsResolves(st, id);
    Simulate(t)
  }

  /** Pressing the same switch twice leaves the circuit as one simulation
      pass over the original leaves it. */
  lemma SwitchPressTwice(st: State, id: nat)
    requires Resolves(st) && UniqueIds(st.components)
    ensures Resolves(OnSwitchPress(st, id))
    ensures OnSwitchPress(OnSwitchPress(st, id), id) == Simulate(st)
  {
    var t := ToggleSwitch(st, id);
    assert Resolves(t) by {
      ToggleKeepsResolves(st, id);
    }
    var on := Simulate(t);
    assert Resolves(on) && UniqueIds(on.components) by {
      EnergyKeepsTopology(t, on);
      ToggleFlipsOnlyThatSwitch(st, id);
      assert forall j :: 0 <= j < |st.components| ==> on.components[j].id == st.components[j].id;
    }
    var back := ToggleSwitch(on, id);
    assert OnlyEnergyChanged(st, back)
      && forall j :: 0 <= j < |st.components| && st.components[j].kind != Led ==> st.components[j].on == back.components[j].on
    by {
      ToggleFlipsOnlyThatSwitch(st, id);
      ToggleFlipsOnlyThatSwitch(on, id);
      forall j | 0 <= j < |st.components|
        ensures back.components[j] == st.components[j].(on := back.components[j].on)
        ensures st.components[j].kind != Led ==> st.components[j].on == back.components[j].on
      {
        assert on.components[j] == t.components[j].(on := on.components[j].on);
      }
    }
    SimulateIgnoresFlags(st, back);
  }

  /** Releasing on terminal (`id`, `side`): complete the pending wire, and
      re-simulate if a wire was added. The pending start and the released
      component must exist: the search dereferences wire ends unchecked.
      Besides what FinishWiring does, only energy flags change, and only
      when a wire was added; then every LED is on, and every wire active,
      exactly when it lies on a found path. */
  function OnTerminalRelease(st: State, id: nat, side: Side): (r: State)
    requires Resolves(st) && PendingResolves(st) && HasId(st.components, id)
    ensures Resolves(FinishWiring(st, id, side)) && Resolves(r)
    ensures OnlyEnergyChanged(FinishWiring(st, id, side), r)
    ensures |FinishWiring(st, id, side).wires| == |st.wires| ==> r == FinishWiring(st, id, side)
    ensures |FinishWiring(st, id, side).wires| != |st.wires| ==>
      forall j :: 0 <= j < |r.components| ==>
        var m := FinishWiring(st, id, side);
        r.components[j].on == if m.components[j].kind == Led then Lit(m, m.components[j].id) else m.components[j].on
    ensures |FinishWiring(st, id, side).wires| != |st.wires| ==>
      forall i :: 0 <= i < |r.wires| ==> r.wires[i].active == Live(FinishWiring(st, id, side), i)
  {
    var m := FinishWiring(st, id, side);
    FinishKeepsResolves(st, id, side);
    if |m.wires| != |st.wires| then
      EnergyKeepsTopology(m, Simulate(m));
      Simulate(m)
    else m
  }

  /** Completing a wire between existing components keeps every wire end
      resolvable. */
  lemma FinishKeepsResolves(st: State, id: nat, side: Side)
    requires Resolves(st) && PendingResolves(st) && HasId(st.components, id)
    ensures Resolves(FinishWiring(st, id, side))
  {
    var m := FinishWiring(st, id, side);
    if |m.wires| != |st.wires| {
      assert forall i :: 0 <= i < |st.wires| ==> m.wires[i] == st.wires[i];
    }
  }

  /** Pressing a switch keeps the store invariant. */
  lemma SwitchPressKeepsValid(st: State, id: nat)
    requires Valid(st)
    ensures Valid(OnSwitchPress(st, id))
  {
    var t := ToggleSwitch(st, id);
    assert forall j :: 0 <= j < |t.components| ==> t.components[j].id == st.components[j].id;
    assert Valid(t);
    SimulatePreservesValid(t);
  }

  /** A drag step keeps the store invariant. */
  lemma DragKeepsValid(st: State, id: nat, px: int, py: int, w: int, h: int)
    requires Valid(st)
    ensures Valid(Drag(st, id, px, py, w, h))
  {
    var d := Drag(st, id, px, py, w, h);
    assert forall j :: 0 <= j < |d.components| ==> d.components[j].id == st.components[j].id;
  }

  /** Releasing on a terminal keeps the store invariant. */
  lemma ReleaseKeepsValid(st: State, id: nat, side: Side)
    requires Valid(st) && PendingResolves(st) && HasId(st.components, id)
    ensures Valid(OnTerminalRelease(st, id, side))
  {
    FinishPreservesValid(st, id, side);
    var m := FinishWiring(st, id, side);
    if |m.wires| != |st.wires| {
      SimulatePreservesValid(m);
    }
  }

  /** Every handler keeps the store invariant. Releasing on a terminal
      needs the pending start to name an existing component; pressing a
      terminal or a switch, or dragging, can only name one that exists. */
  lemma HandlersPreserveValid(st: State, id: nat, side: Side, kind: Kind, px: int, py: int, w: int, h: int)
    requires Valid(st)
    ensures Valid(CreateComponent(st, kind, px, py))
    ensures Valid(OnSwitchPress(st, id))
    ensures Valid(Drag(st, id, px, py, w, h))
    ensures Valid(StartWiring(st, id, side))
    ensures PendingResolves(st) && HasId(st.components, id) ==> Valid(OnTerminalRelease(st, id, side))
    ensures Valid(ResetGame(st))
  {
    CreatePreservesValid(st, kind, px, py);
    SwitchPressKeepsValid(st, id);
    DragKeepsValid(st, id, px, py, w, h);
    if PendingResolves(st) && HasId(st.components, id) {
      ReleaseKeepsValid(st, id, side);
    }
    ResetValidAndFresh(st);
  }

  /** Every handler but the reset keeps the pending start pointing at an
      existing component. */
  lemma HandlersPreservePending(st: State, id: nat, side: Side, kind: Kind, px: int, py: int, w: int, h: int)
    requires Resolves(st) && PendingResolves(st)
    ensures PendingResolves(CreateComponent(st, kind, px, py))
    ensures PendingResolves(OnSwitchPress(st, id))
    ensures PendingResolves(Drag(st, id, px, py, w, h))
    ensures HasId(st.components, id) ==> PendingResolves(StartWiring(st, id, side))
    ensures HasId(st.components, id) ==> PendingResolves(OnTerminalRelease(st, id, side))
  {
    var c := CreateComponent(st, kind, px, py);
    if st.wiringStart.Some? {
      var a :| 0 <= a < |st.components| && st.components[a].id == st.wiringStart.value.compId;
      assert c.components[a] == st.components[a];
      assert OnSwitchPress(st, id).components[a].id == st.components[a].id;
      assert Drag(st, id, px, py, w, h).components[a].id == st.components[a].id;
    }
  }

  /** The reset keeps the pending start, and the ids it pointed at are gone:
      after a reset, releasing on a terminal adds a wire to a component
      that no longer exists, which the search would dereference. This is
      why OnTerminalRelease requires PendingResolves. */
  lemma ResetLeavesStalePending()
    ensures var st := StartWiring(ResetGame(Initial), 0, Right);
      && Valid(st) && PendingResolves(st)
      && !PendingResolves(ResetGame(st))
      && !Resolves(FinishWiring(ResetGame(st), 3, Left))
  {
    var st := StartWiring(ResetGame(Initial), 0, Right);
    var r := ResetGame(st);
    var f := FinishWiring(r, 3, Left);
    assert !HasLink(r.wires, 0, 3);
    assert f.wires == [Wire(Endpoint(0, Right), Endpoint(3, Left), false)];
    assert f.wires[0].start.compId == 0;
    assert !HasId(f.components, 0);
  }

  /** `b` is `a` with some switches possibly closed that were open. */
  ghost predicate MoreClosed(a: State, b: State)
  {
    && |a.components| == |b.components|
    && |a.wires| == |b.wires|
    && (forall j :: 0 <= j < |a.components| ==>
          && a.components[j].id == b.components[j].id
          && a.components[j].kind == b.components[j].kind
          && (a.components[j].closed ==> b.components[j].closed))
    && (forall i :: 0 <= i < |a.wires| ==> a.wires[i].start == b.wires[i].start && a.wires[i].end == b.wires[i].end)
  }

  /** A trail stays a trail when switches are closed. */
  lemma {:induction false} TrailSurvivesClosing(a: State, b: State, at: Endpoint, target: Endpoint, visited: set<nat>, p: seq<PathItem>)
    requires Resolves(a) && Resolves(b) && MoreClosed(a, b)
    requires IsTrail(a, at, target, visited, p)
    ensures IsTrail(b, at, target, visited, p)
    decreases |p|
  {
    var i := p[0].index;
    assert a.wires[i].start == b.wires[i].start && a.wires[i].end == b.wires[i].end;
    var nxt := Far(a.wires[i], at.compId);
    assert Far(b.wires[i], at.compId) == nxt;
    assert !OpenSwitch(Find(b.components, nxt.compId)) by {
      FindIndexByIds(a.components, b.components, nxt.compId);
      var j := FindIndex(a.components, nxt.compId).value;
      assert Find(a.components, nxt.compId) == a.components[j];
    }
    if nxt != target {
      TrailSurvivesClosing(a, b, Endpoint(nxt.compId, Opposite(nxt.side)), target, visited + {p[0].index}, p[2..]);
    }
  }

  /** A battery whose circuit is closed stays so when switches are closed. */
  lemma CircuitSurvivesClosing(a: State, b: State, j: nat)
    requires Resolves(a) && Resolves(b) && MoreClosed(a, b)
    requires j < |a.components|
    ensures FoundPath(a, a.components[j]).Some? ==> FoundPath(b, b.components[j]).Some?
  {
    var bid := a.components[j].id;
    var from, to := Endpoint(bid, Right), Endpoint(bid, Left);
    assert b.components[j].id == bid;
    var r := Trace(a, from, to, {});
    if r.Some? {
      TraceSound(a, from, to, {});
      TrailSurvivesClosing(a, b, from, to, {}, r.value);
      TraceComplete(b, from, to, {}, r.value);
    }
  }

  /** Toggling keeps the wire endpoints resolvable. */
  lemma ToggleKeepsResolves(st: State, id: nat)
    requires Resolves(st)
    ensures Resolves(ToggleSwitch(st, id))
  {
    var t := ToggleSwitch(st, id);
    assert forall j :: 0 <= j < |t.components| ==> t.components[j].id == st.components[j].id;
    ResolvesByIds(st, t);
  }

  /** Switch gating: closing a switch never breaks a battery's closed
      circuit, and opening one never completes a circuit. */
  lemma ClosingSwitchKeepsCircuits(st: State, id: nat, j: nat)
    requires Resolves(st) && UniqueIds(st.components)
    requires j < |st.components|
    ensures Resolves(ToggleSwitch(st, id))
    ensures var t := ToggleSwitch(st, id);
      && (!Closed(st, id) && FoundPath(st, st.components[j]).Some? ==> FoundPath(t, t.components[j]).Some?)
      && (Closed(st, id) && FoundPath(st, st.components[j]).None? ==> FoundPath(t, t.components[j]).None?)
  {
    var t := ToggleSwitch(st, id);
    ToggleKeepsResolves(st, id);
    ToggleFlipsOnlyThatSwitch(st, id);
    if !Closed(st, id) {
      assert MoreClosed(st, t);
      CircuitSurvivesClosing(st, t, j);
    } else {
      assert MoreClosed(t, st);
      CircuitSurvivesClosing(t, st, j);
    }
  }

  /** Some component carrying `id` has `closed` set. */
  ghost predicate Closed(st: State, id: nat)
  {
    exists j :: 0 <= j < |st.components| && st.components[j].id == id && st.components[j].closed
  }
}
