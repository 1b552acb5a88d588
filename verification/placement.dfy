/** The state part of the game's editing handlers: placing a component,
    toggling a switch, dragging, the two halves of the click-to-wire gesture,
    and the reset to the default layout. None of these re-simulates; the
    handlers in module Game add that where the game does. */
module Placement {
  import opened Circuit

  /** Width and height of a component's box, in pixels. */
  const ComponentSize: int := 60

  /** Appends a component with the next id and the default state. The
      position is taken as given: placement does not clamp. */
  function CreateComponent(st: State, kind: Kind, x: int, y: int): (r: State)
    ensures |r.components| == |st.components| + 1
    ensures r.components[..|st.components|] == st.components
    ensures r.components[|st.components|] == Component(st.counter, kind, x, y, false, false)
    ensures r.counter == st.counter + 1
    ensures r.wires == st.wires && r.wiringStart == st.wiringStart
  {
    st.(components := st.components + [Component(st.counter, kind, x, y, false, false)],
        counter := st.counter + 1)
  }

  /** Placing a component keeps the store invariant, and the new id was not
      carried by any component before. */
  lemma CreatePreservesValid(st: State, kind: Kind, x: int, y: int)
    requires Valid(st)
    ensures Valid(CreateComponent(st, kind, x, y))
    ensures !HasId(st.components, st.counter)
  {
    var r := CreateComponent(st, kind, x, y);
    forall i | 0 <= i < |r.wires|
      ensures HasId(r.components, r.wires[i].start.compId) && HasId(r.components, r.wires[i].end.compId)
    {
      var a :| 0 <= a < |st.components| && st.components[a].id == st.wires[i].start.compId;
      var b :| 0 <= b < |st.components| && st.components[b].id == st.wires[i].end.compId;
      assert r.components[a] == st.components[a];
      assert r.components[b] == st.components[b];
    }
  }

  /** Flips `closed` of the first component carrying `id`. The handler is
      only installed on switches; an id that names nothing leaves the state
      as it was (game.js would fault before changing anything). */
  function ToggleSwitch(st: State, id: nat): (r: State)
    ensures r.wires == st.wires && r.counter == st.counter && r.wiringStart == st.wiringStart
    ensures |r.components| == |st.components|
    ensures !HasId(st.components, id) ==> r == st
  {
    match FindIndex(st.components, id)
    case None => st
    case Some(k) =>
      var c := st.components[k];
      st.(components := st.components[k := c.(closed := !c.closed)])
  }

  /** With unique ids, toggling flips `closed` of exactly the component
      carrying `id` and changes nothing else about any component. */
  lemma ToggleFlipsOnlyThatSwitch(st: State, id: nat)
    requires UniqueIds(st.components)
    ensures var r := ToggleSwitch(st, id);
      forall j :: 0 <= j < |st.components| ==>
        r.components[j] == st.components[j].(closed := st.components[j].closed != (st.components[j].id == id))
  {
  }

  /** Toggling the same switch twice restores the state. */
  lemma ToggleTwice(st: State, id: nat)
    ensures ToggleSwitch(ToggleSwitch(st, id), id) == st
  {
    match FindIndex(st.components, id)
    case None =>
    case Some(k) =>
      var r := ToggleSwitch(st, id);
      FindIndexByIds(st.components, r.components, id);
      assert r.components[k := st.components[k]] == st.components;
  }

  /** Clamps `v` into `[0, hi]`; the result is 0 when `hi < 0`. */
  function Clamp(v: int, hi: int): (r: int)
    ensures 0 <= hi ==> 0 <= r <= hi
    ensures 0 <= v <= hi ==> r == v
    ensures v < 0 || hi < 0 ==> r == 0
    ensures 0 <= hi < v ==> r == hi
  {
    var m := if v < hi then v else hi;
    if m < 0 then 0 else m
  }

  /** One drag step: moves the dragged component to (px, py) clamped so
      that its box stays on a canvas of the given size. Only the dragged
      component's position changes. An id that names nothing is the
      "nothing is being dragged" case and changes nothing. */
  function Drag(st: State, id: nat, px: int, py: int, width: int, height: int): (r: State)
    ensures r.wires == st.wires && r.counter == st.counter && r.wiringStart == st.wiringStart
    ensures |r.components| == |st.components|
    ensures !HasId(st.components, id) ==> r == st
  {
    match FindIndex(st.components, id)
    case None => st
    case Some(k) =>
      var c := st.components[k];
      st.(components := st.components[k := c.(x := Clamp(px, width - ComponentSize),
                                                y := Clamp(py, height - ComponentSize))])
  }

  /** On a canvas at least one component wide and high, the dragged
      component ends inside the canvas, lands exactly on (px, py) when that
      is inside, and every other component and every other field is as
      before. */
  lemma DragStaysOnCanvas(st: State, id: nat, px: int, py: int, width: int, height: int)
    requires UniqueIds(st.components)
    requires width >= ComponentSize && height >= ComponentSize
    ensures var r := Drag(st, id, px, py, width, height);
      forall j :: 0 <= j < |st.components| ==>
        if st.components[j].id == id then
          && r.components[j] == st.components[j].(x := r.components[j].x, y := r.components[j].y)
          && 0 <= r.components[j].x <= width - ComponentSize
          && 0 <= r.components[j].y <= height - ComponentSize
          && (0 <= px <= width - ComponentSize ==> r.components[j].x == px)
          && (0 <= py <= height - ComponentSize ==> r.components[j].y == py)
        else r.components[j] == st.components[j]
  {
  }

  /** Repeating a drag step to the same pointer position changes nothing. */
  lemma DragIdempotent(st: State, id: nat, px: int, py: int, width: int, height: int)
    ensures var r := Drag(st, id, px, py, width, height);
      Drag(r, id, px, py, width, height) == r
  {
    var r := Drag(st, id, px, py, width, height);
    match FindIndex(st.components, id)
    case None =>
    case Some(k) =>
      FindIndexByIds(st.components, r.components, id);
      assert r.components[k := r.components[k]] == r.components;
  }

  /** Pressing on a terminal records it as the pending wiring start,
      replacing any earlier one. */
  function StartWiring(st: State, id: nat, side: Side): (r: State)
    ensures r.wiringStart == Some(Endpoint(id, side))
    ensures r.components == st.components && r.wires == st.wires && r.counter == st.counter
  {
    st.(wiringStart := Some(Endpoint(id, side)))
  }

  /** Whether some wire already joins components `a` and `b`, in either
      direction and on any sides. */
  function HasLink(ws: seq<Wire>, a: nat, b: nat): (r: bool)
    ensures r <==> Linked(ws, a, b)
  {
    if |ws| == 0 then false
    else if SamePair(ws[0], a, b) then true
    else
      assert forall i :: 1 <= i < |ws| ==> ws[i] == ws[1..][i - 1];
      HasLink(ws[1..], a, b)
  }

  /** Releasing on a terminal of component `id` completes a pending wire.
      Nothing happens without a pending start, and nothing at all (the
      pending start included) when the release is on the start's own
      component. Otherwise the pending start is cleared, and a wire from it
      to the released terminal is appended unless the two components are
      already joined by some wire, whatever sides that wire uses. */
  function FinishWiring(st: State, id: nat, side: Side): (r: State)
    ensures st.wiringStart.None? ==> r == st
    ensures st.wiringStart.Some? && st.wiringStart.value.compId == id ==> r == st
    ensures st.wiringStart.Some? && st.wiringStart.value.compId != id ==>
      && r.wiringStart.None?
      && r.components == st.components
      && r.counter == st.counter
      && (Linked(st.wires, st.wiringStart.value.compId, id) ==> r.wires == st.wires)
      && (!Linked(st.wires, st.wiringStart.value.compId, id) ==>
            r.wires == st.wires + [Wire(st.wiringStart.value, Endpoint(id, side), false)])
  {
    match st.wiringStart
    case None => st
    case Some(from) =>
      if from.compId == id then st
      else if HasLink(st.wires, from.compId, id) then st.(wiringStart := None)
      else st.(wires := st.wires + [Wire(from, Endpoint(id, side), false)], wiringStart := None)
  }

  /** Completing a wire keeps the store invariant when both ends name
      existing components: in particular no self-wire and at most one wire
      per pair of components. */
  lemma FinishPreservesValid(st: State, id: nat, side: Side)
    requires Valid(st) && PendingResolves(st) && HasId(st.components, id)
    ensures Valid(FinishWiring(st, id, side))
  {
    var r := FinishWiring(st, id, side);
    if st.wiringStart.Some? && st.wiringStart.value.compId != id
       && !Linked(st.wires, st.wiringStart.value.compId, id) {
      var n := |st.wires|;
      forall i, j | 0 <= i < j < |r.wires|
        ensures !SamePair(r.wires[j], r.wires[i].start.compId, r.wires[i].end.compId)
      {
        if j == n {
          assert r.wires[i] == st.wires[i];
          assert !SamePair(st.wires[i], st.wiringStart.value.compId, id);
        } else {
          assert r.wires[i] == st.wires[i] && r.wires[j] == st.wires[j];
        }
      }
    }
  }

  /** Starting on `a` and releasing on `b` of an unjoined pair appends the
      single wire a-b; doing it again, in either direction and on any sides,
      changes no wire. */
  lemma WireOncePerPair(st: State, a: nat, sa: Side, b: nat, sb: Side, sa2: Side, sb2: Side, forward: bool)
    requires a != b && !Linked(st.wires, a, b)
    ensures var r := FinishWiring(StartWiring(st, a, sa), b, sb);
      && r.wires == st.wires + [Wire(Endpoint(a, sa), Endpoint(b, sb), false)]
      && r.wiringStart.None?
    ensures var r := FinishWiring(StartWiring(st, a, sa), b, sb);
      var r2 := if forward then FinishWiring(StartWiring(r, a, sa2), b, sb2)
                else FinishWiring(StartWiring(r, b, sb2), a, sa2);
      r2.wires == r.wires
  {
    var r := FinishWiring(StartWiring(st, a, sa), b, sb);
    var n := |st.wires|;
    assert SamePair(r.wires[n], a, b) && SamePair(r.wires[n], b, a);
  }

  /** The default layout: a battery, an LED and a switch, no wires. */
  function ResetGame(st: State): (r: State)
    ensures r.components == [
      Component(st.counter, Battery, 50, 50, false, false),
      Component(st.counter + 1, Led, 200, 50, false, false),
      Component(st.counter + 2, Switch, 125, 150, false, false)]
    ensures r.wires == []
    ensures r.counter == st.counter + 3
    ensures r.wiringStart == st.wiringStart
  {
    var cleared := st.(components := [], wires := []);
    CreateComponent(CreateComponent(CreateComponent(cleared, Battery, 50, 50), Led, 200, 50), Switch, 125, 150)
  }

  /** A reset always yields a valid store whose ids were never handed out
      before, since the counter keeps running. */
  lemma ResetValidAndFresh(st: State)
    requires IdsBelowCounter(st)
    ensures Valid(ResetGame(st))
    ensures forall j, k :: 0 <= j < |st.components| && 0 <= k < |ResetGame(st).components| ==>
      st.components[j].id != ResetGame(st).components[k].id
  {
  }
}
