/** The simulation pass: every LED is switched off and every wire marked
    inactive, then each battery in list order is searched from its positive
    terminal back to its own negative terminal, and the wires and LEDs on
    every path found are energised. */
module Simulation {
  import opened Circuit
  import opened Tracer

  /** The path the search finds for battery `b`, if any. */
  function FoundPath(st: State, b: Component): Option<seq<PathItem>>
    requires Resolves(st)
  {
    Trace(st, Endpoint(b.id, Right), Endpoint(b.id, Left), {})
  }

  /** The `j`-th component is a battery whose found path holds `item`. */
  ghost predicate Carries(st: State, j: int, item: PathItem)
    requires Resolves(st)
  {
    && 0 <= j < |st.components|
    && st.components[j].kind == Battery
    && var r := FoundPath(st, st.components[j]);
       r.Some? && item in r.value
  }

  /** Wire `i` lies on some battery's found path. */
  ghost predicate Live(st: State, i: nat)
    requires Resolves(st)
  {
    exists j :: Carries(st, j, WireItem(i))
  }

  /** The component id lies on some battery's found path. */
  ghost predicate Lit(st: State, id: nat)
    requires Resolves(st)
  {
    exists j :: Carries(st, j, CompItem(id))
  }

  /** What one pass energises: wire indices and component ids. */
  datatype Energy = Energy(wires: set<nat>, ids: set<nat>)

  function WiresOn(p: seq<PathItem>): (s: set<nat>)
    ensures forall i :: i in s <==> WireItem(i) in p
  {
    set x | x in p && x.WireItem? :: x.index
  }

  function IdsOn(p: seq<PathItem>): (s: set<nat>)
    ensures forall id :: id in s <==> CompItem(id) in p
  {
    set x | x in p && x.CompItem? :: x.id
  }

  /** The union of the paths found for the batteries among the first `n`
      components. */
  function Collect(st: State, n: nat): (e: Energy)
    requires Resolves(st) && n <= |st.components|
    ensures forall i :: i in e.wires <==> exists j :: 0 <= j < n && Carries(st, j, WireItem(i))
    ensures forall id :: id in e.ids <==> exists j :: 0 <= j < n && Carries(st, j, CompItem(id))
  {
    if n == 0 then Energy({}, {})
    else
      var e := Collect(st, n - 1);
      var b := st.components[n - 1];
      if b.kind != Battery then e
      else
        match FoundPath(st, b)
        case None => e
        case Some(p) =>
          assert forall item :: Carries(st, n - 1, item) <==> item in p;
          Energy(e.wires + WiresOn(p), e.ids + IdsOn(p))
  }

  /** `r` is `st` with at most the LED and wire energy flags changed. */
  ghost predicate OnlyEnergyChanged(st: State, r: State)
  {
    && |r.components| == |st.components|
    && |r.wires| == |st.wires|
    && (forall j :: 0 <= j < |st.components| ==> r.components[j] == st.components[j].(on := r.components[j].on))
    && (forall i :: 0 <= i < |st.wires| ==> r.wires[i] == st.wires[i].(active := r.wires[i].active))
    && r.counter == st.counter
    && r.wiringStart == st.wiringStart
  }

  /** `simulateCircuit`. An LED is on exactly when it lies on some
      battery's found path, and a wire is active exactly when it does; the
      previous flags play no part. Nothing but those flags changes, and
      components that are not LEDs keep their `on` flag. */
  function Simulate(st: State): (r: State)
    requires Resolves(st)
    ensures OnlyEnergyChanged(st, r)
    ensures forall j :: 0 <= j < |st.components| ==>
      r.components[j].on == if st.components[j].kind == Led then Lit(st, st.components[j].id) else st.components[j].on
    ensures forall i :: 0 <= i < |st.wires| ==> r.wires[i].active == Live(st, i)
  {
    var e := Collect(st, |st.components|);
    var cs := seq(|st.components|, j requires 0 <= j < |st.components| =>
      var c := st.components[j];
      if c.kind == Led then c.(on := c.id in e.ids) else c);
    var ws := seq(|st.wires|, i requires 0 <= i < |st.wires| => st.wires[i].(active := i in e.wires));
    st.(components := cs, wires := ws)
  }

  /** Two states that agree on everything the search reads: component ids,
      kinds and switch states, and wire endpoints. */
  ghost predicate SameTopology(a: State, b: State)
  {
    && |a.components| == |b.components|
    && |a.wires| == |b.wires|
    && (forall j :: 0 <= j < |a.components| ==>
          && a.components[j].id == b.components[j].id
          && a.components[j].kind == b.components[j].kind
          && a.components[j].closed == b.components[j].closed)
    && (forall i :: 0 <= i < |a.wires| ==> a.wires[i].start == b.wires[i].start && a.wires[i].end == b.wires[i].end)
  }

  lemma {:induction false} ConnectedReadsEndpoints(a: seq<Wire>, b: seq<Wire>, at: Endpoint, n: nat)
    requires n <= |a| == |b|
    requires forall i :: 0 <= i < |a| ==> a[i].start == b[i].start && a[i].end == b[i].end
    ensures ConnectedBelow(a, at, n) == ConnectedBelow(b, at, n)
  {
    if n > 0 {
      ConnectedReadsEndpoints(a, b, at, n - 1);
    }
  }

  /** The search reads nothing but the topology: positions, LED and wire
      flags make no difference to the path it finds. */
  lemma {:induction false} TraceReadsTopology(a: State, b: State, at: Endpoint, target: Endpoint, visited: set<nat>)
    requires Resolves(a) && Resolves(b) && SameTopology(a, b)
    ensures Trace(a, at, target, visited) == Trace(b, at, target, visited)
    decreases Unvisited(|a.wires|, visited), 1, 0
  {
    ConnectedReadsEndpoints(a.wires, b.wires, at, |a.wires|);
    CandidatesReadTopology(a, b, at, ConnectedWires(a.wires, at));
    TryEachReadsTopology(a, b, at, target, visited, ConnectedWires(a.wires, at), 0);
  }

  lemma CandidatesReadTopology(a: State, b: State, at: Endpoint, cands: seq<nat>)
    requires SameTopology(a, b) && Candidates(a, at, cands)
    ensures Candidates(b, at, cands)
  {
    forall m | 0 <= m < |cands|
      ensures cands[m] < |b.wires| && Touches(b.wires[cands[m]], at)
    {
      assert a.wires[cands[m]].start == b.wires[cands[m]].start;
    }
  }

  lemma {:induction false} TryEachReadsTopology(a: State, b: State, at: Endpoint, target: Endpoint, visited: set<nat>,
                                                cands: seq<nat>, k: nat)
    requires Resolves(a) && Resolves(b) && SameTopology(a, b)
    requires k <= |cands| && Candidates(a, at, cands) && Candidates(b, at, cands)
    ensures TryEach(a, at, target, visited, cands, k) == TryEach(b, at, target, visited, cands, k)
    decreases Unvisited(|a.wires|, visited), 0, |cands| - k
  {
    if k < |cands| {
      var i := cands[k];
      if i in visited {
        TryEachReadsTopology(a, b, at, target, visited, cands, k + 1);
      } else {
        assert a.wires[i].start == b.wires[i].start && a.wires[i].end == b.wires[i].end;
        var nxt := Far(a.wires[i], at.compId);
        assert Far(b.wires[i], at.compId) == nxt;
        FindIndexByIds(a.components, b.components, nxt.compId);
        var j := FindIndex(a.components, nxt.compId).value;
        var ca, cb := Find(a.components, nxt.compId), Find(b.components, nxt.compId);
        assert ca == a.components[j] && cb == b.components[j];
        assert ca.id == cb.id && OpenSwitch(ca) == OpenSwitch(cb);
        if OpenSwitch(ca) {
          TryEachReadsTopology(a, b, at, target, visited, cands, k + 1);
        } else if ca.id != target.compId || nxt.side != target.side {
          UnvisitedShrinks(|a.wires|, visited, i);
          TraceReadsTopology(a, b, Endpoint(ca.id, Opposite(nxt.side)), target, visited + {i});
          TryEachReadsTopology(a, b, at, target, visited, cands, k + 1);
        }
      }
    }
  }

  /** Same topology, same energised wires and LEDs. */
  lemma CarriesReadsTopology(a: State, b: State)
    requires Resolves(a) && Resolves(b) && SameTopology(a, b)
    ensures forall j, item :: Carries(a, j, item) <==> Carries(b, j, item)
  {
    forall j | 0 <= j < |a.components|
      ensures FoundPath(a, a.components[j]) == FoundPath(b, b.components[j])
    {
      var id := a.components[j].id;
      TraceReadsTopology(a, b, Endpoint(id, Right), Endpoint(id, Left), {});
    }
  }

  /** Changing energy flags changes nothing the search reads. */
  lemma EnergyKeepsTopology(a: State, b: State)
    requires Resolves(a) && OnlyEnergyChanged(a, b)
    ensures Resolves(b) && SameTopology(a, b)
  {
    assert forall j :: 0 <= j < |a.components| ==> a.components[j].id == b.components[j].id;
    assert forall i :: 0 <= i < |a.wires| ==> a.wires[i].start == b.wires[i].start && a.wires[i].end == b.wires[i].end;
    ResolvesByIds(a, b);
  }

  /** The pass does not read the previous LED and wire flags: two states
      that differ only in those flags simulate to the same state. */
  lemma SimulateIgnoresFlags(a: State, b: State)
    requires Resolves(a) && OnlyEnergyChanged(a, b)
    requires forall j :: 0 <= j < |a.components| && a.components[j].kind != Led ==> a.components[j].on == b.components[j].on
    ensures Resolves(b)
    ensures Simulate(a) == Simulate(b)
  {
    EnergyKeepsTopology(a, b);
    CarriesReadsTopology(a, b);
    var ra, rb := Simulate(a), Simulate(b);
    assert ra.components == rb.components by {
      forall j | 0 <= j < |a.components|
        ensures ra.components[j] == rb.components[j]
      {
        assert Lit(a, a.components[j].id) == Lit(b, b.components[j].id);
      }
    }
    assert ra.wires == rb.wires by {
      forall i | 0 <= i < |a.wires|
        ensures ra.wires[i] == rb.wires[i]
      {
        assert Live(a, i) == Live(b, i);
      }
    }
  }

  /** When no battery's search succeeds, a pass switches every LED off and
      marks every wire inactive. */
  lemma NoCircuitIsDark(st: State)
    requires Resolves(st)
    requires forall j :: 0 <= j < |st.components| && st.components[j].kind == Battery ==>
      FoundPath(st, st.components[j]).None?
    ensures forall id :: !Lit(st, id)
    ensures forall i :: !Live(st, i)
    ensures var r := Simulate(st);
      && (forall j :: 0 <= j < |r.components| && r.components[j].kind == Led ==> !r.components[j].on)
      && (forall i :: 0 <= i < |r.wires| ==> !r.wires[i].active)
  {
  }

  /** A state is left as it is by a pass exactly when its LED flags already
      say which LEDs lie on a found path and its wire flags which wires do. */
  lemma SimulateFixedPoint(st: State)
    requires Resolves(st)
    ensures Simulate(st) == st <==>
      && (forall j :: 0 <= j < |st.components| && st.components[j].kind == Led ==>
            st.components[j].on == Lit(st, st.components[j].id))
      && (forall i :: 0 <= i < |st.wires| ==> st.wires[i].active == Live(st, i))
  {
    var r := Simulate(st);
    if (forall j :: 0 <= j < |st.components| && st.components[j].kind == Led ==>
          st.components[j].on == Lit(st, st.components[j].id))
       && (forall i :: 0 <= i < |st.wires| ==> st.wires[i].active == Live(st, i)) {
      assert r.components == st.components by {
        forall j | 0 <= j < |st.components|
          ensures r.components[j] == st.components[j]
        {
        }
      }
      assert r.wires == st.wires by {
        forall i | 0 <= i < |st.wires|
          ensures r.wires[i] == st.wires[i]
        {
        }
      }
    }
  }

  /** Simulating twice in a row gives the state that simulating once does. */
  lemma SimulateIdempotent(st: State)
    requires Resolves(st)
    ensures Resolves(Simulate(st))
    ensures Simulate(Simulate(st)) == Simulate(st)
  {
    SimulateIgnoresFlags(st, Simulate(st));
  }

  /** A simulation pass keeps the store invariant. */
  lemma SimulatePreservesValid(st: State)
    requires Valid(st)
    ensures Valid(Simulate(st))
  {
    var r := Simulate(st);
    SimulateIdempotent(st);
    assert forall i :: 0 <= i < |r.wires| ==> r.wires[i].start == st.wires[i].start && r.wires[i].end == st.wires[i].end;
    assert forall j :: 0 <= j < |r.components| ==> r.components[j].id == st.components[j].id;
  }
}
