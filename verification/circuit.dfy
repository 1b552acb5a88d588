/** Data model of the circuit mini-game: placed components, wires between
    component terminals, and the session record that every event handler
    updates. Also the well-formedness invariant the handlers keep. */
module Circuit {

  datatype Option<T> = None | Some(value: T)

  /** A terminal side. On a battery, Right is the positive pole and Left the
      negative one; on an LED or a switch the two sides are the two ends. */
  datatype Side = Left | Right

  /** The side a path leaves a component by after entering it at `s`. */
  function Opposite(s: Side): (o: Side)
    ensures o != s
  {
    if s == Left then Right else Left
  }

  datatype Kind = Battery | Led | Switch

  /** A terminal reference: a component id and one of its two sides. */
  datatype Endpoint = Endpoint(compId: nat, side: Side)

  /** A placed component. `closed` only matters for a switch and `on` only
      for an LED; both start out false. Positions are canvas pixels. */
  datatype Component = Component(id: nat, kind: Kind, x: int, y: int, closed: bool, on: bool)

  /** A wire between two terminals, in the order the user drew it. */
  datatype Wire = Wire(start: Endpoint, end: Endpoint, active: bool)

  /** One game session: the component list, the wire list, the next id to
      hand out, and the terminal a pending wiring gesture started from. */
  datatype State = State(components: seq<Component>, wires: seq<Wire>, counter: nat, wiringStart: Option<Endpoint>)

  /** An entry of a traced path: a wire (by index) or a component (by id). */
  datatype PathItem = WireItem(index: nat) | CompItem(id: nat)

  /** The session before the start button is pressed. */
  const Initial: State := State([], [], 0, None)

  predicate HasId(cs: seq<Component>, id: nat)
  {
    exists j :: 0 <= j < |cs| && cs[j].id == id
  }

  /** The position of the first component carrying `id`, as a linear search
      over the list finds it. */
  function FindIndex(cs: seq<Component>, id: nat): (r: Option<nat>)
    ensures r.None? <==> !HasId(cs, id)
    ensures r.Some? ==> r.value < |cs| && cs[r.value].id == id
    ensures r.Some? ==> forall j :: 0 <= j < r.value ==> cs[j].id != id
  {
    if |cs| == 0 then None
    else if cs[0].id == id then Some(0)
    else
      match FindIndex(cs[1..], id)
      case None =>
        assert forall j :: 1 <= j < |cs| ==> cs[j] == cs[1..][j - 1];
        None
      case Some(k) =>
        assert cs[k + 1] == cs[1..][k];
        assert forall j :: 1 <= j < k + 1 ==> cs[j] == cs[1..][j - 1];
        Some(k + 1)
  }

  /** The first component carrying `id`; callers must know one exists. */
  function Find(cs: seq<Component>, id: nat): (c: Component)
    requires HasId(cs, id)
    ensures c in cs && c.id == id
  {
    cs[FindIndex(cs, id).value]
  }

  /** Two lists whose ids agree position by position find the same index. */
  lemma FindIndexByIds(a: seq<Component>, b: seq<Component>, id: nat)
    requires |a| == |b|
    requires forall j :: 0 <= j < |a| ==> a[j].id == b[j].id
    ensures FindIndex(a, id) == FindIndex(b, id)
  {
  }

  /** Every wire endpoint names a component that exists. The path search
      dereferences the component at the far end of a wire without a guard,
      so it is only defined on states with this property. */
  predicate Resolves(st: State)
  {
    forall i :: 0 <= i < |st.wires| ==>
      HasId(st.components, st.wires[i].start.compId) && HasId(st.components, st.wires[i].end.compId)
  }

  /** Resolution only looks at component ids and wire endpoint ids. */
  lemma ResolvesByIds(a: State, b: State)
    requires Resolves(a)
    requires |a.components| == |b.components| && |a.wires| == |b.wires|
    requires forall j :: 0 <= j < |a.components| ==> a.components[j].id == b.components[j].id
    requires forall i :: 0 <= i < |a.wires| ==>
      a.wires[i].start.compId == b.wires[i].start.compId && a.wires[i].end.compId == b.wires[i].end.compId
    ensures Resolves(b)
  {
    forall i | 0 <= i < |b.wires|
      ensures HasId(b.components, b.wires[i].start.compId) && HasId(b.components, b.wires[i].end.compId)
    {
      var x :| 0 <= x < |a.components| && a.components[x].id == a.wires[i].start.compId;
      var y :| 0 <= y < |a.components| && a.components[y].id == a.wires[i].end.compId;
      assert b.components[x].id == a.components[x].id && b.components[y].id == a.components[y].id;
    }
  }

  /** A wire joins components `a` and `b`, in either direction, whatever sides. */
  predicate SamePair(w: Wire, a: nat, b: nat)
  {
    (w.start.compId == a && w.end.compId == b) || (w.start.compId == b && w.end.compId == a)
  }

  ghost predicate Linked(ws: seq<Wire>, a: nat, b: nat)
  {
    exists i :: 0 <= i < |ws| && SamePair(ws[i], a, b)
  }

  predicate IdsBelowCounter(st: State)
  {
    forall j :: 0 <= j < |st.components| ==> st.components[j].id < st.counter
  }

  predicate UniqueIds(cs: seq<Component>)
  {
    forall j, k :: 0 <= j < k < |cs| ==> cs[j].id != cs[k].id
  }

  predicate NoSelfWire(ws: seq<Wire>)
  {
    forall i :: 0 <= i < |ws| ==> ws[i].start.compId != ws[i].end.compId
  }

  /** At most one wire per unordered pair of components. */
  predicate OnePerPair(ws: seq<Wire>)
  {
    forall i, j :: 0 <= i < j < |ws| ==> !SamePair(ws[j], ws[i].start.compId, ws[i].end.compId)
  }

  /** The store invariant: ids are unique and below the counter (so never
      reused), wires name existing components, no wire joins a component to
      itself, and no two wires join the same pair of components. */
  predicate Valid(st: State)
  {
    && IdsBelowCounter(st)
    && UniqueIds(st.components)
    && Resolves(st)
    && NoSelfWire(st.wires)
    && OnePerPair(st.wires)
  }

  /** The pending wiring start, if any, names an existing component. */
  predicate PendingResolves(st: State)
  {
    st.wiringStart.Some? ==> HasId(st.components, st.wiringStart.value.compId)
  }
}
