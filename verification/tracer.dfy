/** The depth-first path search with backtracking that decides whether a
    battery's positive terminal reaches its negative terminal. Wires are
    named by their index in the wire list; `visited` holds the indices of
    the wires on the path being explored. */
module Tracer {
  import opened Circuit

  /** The wire has the terminal `at` as one of its two ends. */
  predicate Touches(w: Wire, at: Endpoint)
  {
    w.start == at || w.end == at
  }

  /** The end of `w` across from component `id`: the end terminal when the
      wire starts on `id`, otherwise the start terminal. */
  function Far(w: Wire, id: nat): (e: Endpoint)
    ensures e == w.start || e == w.end
    ensures w.start.compId == id ==> e == w.end
    ensures w.start.compId != id ==> e == w.start
  {
    if w.start.compId == id then w.end else w.start
  }

  predicate OpenSwitch(c: Component)
  {
    c.kind == Switch && !c.closed
  }

  /** The indices below `n` of the wires touching `at`, in list order. */
  function ConnectedBelow(ws: seq<Wire>, at: Endpoint, n: nat): (r: seq<nat>)
    requires n <= |ws|
    ensures forall k :: 0 <= k < |r| ==> r[k] < n && Touches(ws[r[k]], at)
    ensures forall i :: 0 <= i < n && Touches(ws[i], at) ==> i in r
    ensures forall k, l :: 0 <= k < l < |r| ==> r[k] < r[l]
  {
    if n == 0 then []
    else ConnectedBelow(ws, at, n - 1) + (if Touches(ws[n - 1], at) then [n - 1] else [])
  }

  /** The wires touching terminal `at`, in insertion order. */
  function ConnectedWires(ws: seq<Wire>, at: Endpoint): (r: seq<nat>)
    ensures forall k :: 0 <= k < |r| ==> r[k] < |ws| && Touches(ws[r[k]], at)
    ensures forall i :: 0 <= i < |ws| && Touches(ws[i], at) ==> i in r
    ensures forall k, l :: 0 <= k < l < |r| ==> r[k] < r[l]
  {
    ConnectedBelow(ws, at, |ws|)
  }

  /** The head of a strictly increasing list is its least element. */
  lemma HeadIsLeast(a: seq<nat>)
    requires forall k, l :: 0 <= k < l < |a| ==> a[k] < a[l]
    ensures |a| > 0 ==> a[0] in a && forall x :: x in a ==> a[0] <= x
  {
    forall x | x in a
      ensures a[0] <= x
    {
      var k :| 0 <= k < |a| && a[k] == x;
      if k > 0 {
        assert a[0] < a[k];
      }
    }
  }

  /** Dropping an equal head from two strictly increasing lists with the
      same elements leaves two lists with the same elements. */
  lemma TailsShareElements(a: seq<nat>, b: seq<nat>)
    requires forall k, l :: 0 <= k < l < |a| ==> a[k] < a[l]
    requires forall k, l :: 0 <= k < l < |b| ==> b[k] < b[l]
    requires forall x :: x in a <==> x in b
    requires |a| > 0 && |b| > 0 && a[0] == b[0]
    ensures forall x :: x in a[1..] <==> x in b[1..]
  {
    forall x | x in a[1..]
      ensures x in b[1..]
    {
      var k :| 0 <= k < |a| - 1 && a[1..][k] == x;
      assert a[0] < a[k + 1] && x in b;
      var m :| 0 <= m < |b| && b[m] == x;
      assert m != 0 && b[1..][m - 1] == x;
    }
    forall x | x in b[1..]
      ensures x in a[1..]
    {
      var k :| 0 <= k < |b| - 1 && b[1..][k] == x;
      assert b[0] < b[k + 1] && x in a;
      var m :| 0 <= m < |a| && a[m] == x;
      assert m != 0 && a[1..][m - 1] == x;
    }
  }

  /** Two strictly increasing lists with the same elements are equal. */
  lemma {:induction false} IncreasingUnique(a: seq<nat>, b: seq<nat>)
    requires forall k, l :: 0 <= k < l < |a| ==> a[k] < a[l]
    requires forall k, l :: 0 <= k < l < |b| ==> b[k] < b[l]
    requires forall x :: x in a <==> x in b
    ensures a == b
    decreases |a|
  {
    HeadIsLeast(a);
    HeadIsLeast(b);
    if |a| > 0 && |b| > 0 {
      assert a[0] == b[0];
      TailsShareElements(a, b);
      IncreasingUnique(a[1..], b[1..]);
      assert a == [a[0]] + a[1..] && b == [b[0]] + b[1..];
    }
  }

  /** The contract of ConnectedWires determines it: any strictly
      increasing list of exactly the wires touching `at` is that list. */
  lemma ConnectedWiresExactly(ws: seq<Wire>, at: Endpoint, r: seq<nat>)
    requires forall k :: 0 <= k < |r| ==> r[k] < |ws| && Touches(ws[r[k]], at)
    requires forall i :: 0 <= i < |ws| && Touches(ws[i], at) ==> i in r
    requires forall k, l :: 0 <= k < l < |r| ==> r[k] < r[l]
    ensures ConnectedWires(ws, at) == r
  {
    var c := ConnectedWires(ws, at);
    forall x
      ensures x in c <==> x in r
    {
      if x in c {
        var k :| 0 <= k < |c| && c[k] == x;
      }
      if x in r {
        var k :| 0 <= k < |r| && r[k] == x;
      }
    }
    IncreasingUnique(c, r);
  }

  /** The wires not yet on the current path; each descent removes one. */
  function Unvisited(n: nat, visited: set<nat>): set<nat>
  {
    set i | 0 <= i < n && i !in visited
  }

  /** Putting an unvisited wire on the path shrinks the unvisited set. */
  lemma UnvisitedShrinks(n: nat, visited: set<nat>, i: nat)
    requires i < n && i !in visited
    ensures Unvisited(n, visited + {i}) < Unvisited(n, visited)
  {
    assert i in Unvisited(n, visited);
  }

  /** `cands` lists wires touching terminal `at`. */
  predicate Candidates(st: State, at: Endpoint, cands: seq<nat>)
  {
    forall m :: 0 <= m < |cands| ==> cands[m] < |st.wires| && Touches(st.wires[cands[m]], at)
  }

  /** The search from terminal `at` to terminal `target`, avoiding the wires
      in `visited`: `Some(p)` with the items appended to the path on success,
      `None` when every branch fails. */
  function Trace(st: State, at: Endpoint, target: Endpoint, visited: set<nat>): Option<seq<PathItem>>
    requires Resolves(st)
    decreases Unvisited(|st.wires|, visited), 1, 0
  {
    TryEach(st, at, target, visited, ConnectedWires(st.wires, at), 0)
  }

  /** The loop over the connected wires, from position `k` on. A visited
      wire is skipped; so is a wire whose far component is an open switch,
      which is checked before the target. A wire whose far end is the target
      terminal ends the search. Any other far component is passed through,
      entering at one side and leaving by the opposite one, whatever its
      kind (a battery too). */
  function TryEach(st: State, at: Endpoint, target: Endpoint, visited: set<nat>, cands: seq<nat>, k: nat)
    : Option<seq<PathItem>>
    requires Resolves(st)
    requires k <= |cands| && Candidates(st, at, cands)
    decreases Unvisited(|st.wires|, visited), 0, |cands| - k
  {
    if k == |cands| then None
    else
      var i := cands[k];
      if i in visited then TryEach(st, at, target, visited, cands, k + 1)
      else
        var nxt := Far(st.wires[i], at.compId);
        var c := Find(st.components, nxt.compId);
        if OpenSwitch(c) then TryEach(st, at, target, visited, cands, k + 1)
        else if c.id == target.compId && nxt.side == target.side then Some([WireItem(i)])
        else
          UnvisitedShrinks(|st.wires|, visited, i);
          match Trace(st, Endpoint(c.id, Opposite(nxt.side)), target, visited + {i})
          case Some(rest) => Some([WireItem(i), CompItem(c.id)] + rest)
          case None => TryEach(st, at, target, visited, cands, k + 1)
  }

  /** A trail from terminal `at` to terminal `target` using no wire of
      `visited`: wires alternate with the components passed through; every
      wire touches the terminal the trail is at; no component reached is an
      open switch; a component is left by the side opposite the one it was
      entered at; no wire is used twice; and the last wire's far end is the
      target, which no earlier wire reaches. */
  ghost predicate IsTrail(st: State, at: Endpoint, target: Endpoint, visited: set<nat>, p: seq<PathItem>)
    requires Resolves(st)
    decreases |p|
  {
    && |p| >= 1
    && p[0].WireItem?
    && p[0].index < |st.wires|
    && p[0].index !in visited
    && Touches(st.wires[p[0].index], at)
    && var nxt := Far(st.wires[p[0].index], at.compId);
       && !OpenSwitch(Find(st.components, nxt.compId))
       && if nxt == target then p == [p[0]]
          else
            && |p| >= 3
            && p[1] == CompItem(nxt.compId)
            && IsTrail(st, Endpoint(nxt.compId, Opposite(nxt.side)), target, visited + {p[0].index}, p[2..])
  }

  lemma {:induction false} TraceSound(st: State, at: Endpoint, target: Endpoint, visited: set<nat>)
    requires Resolves(st)
    ensures var r := Trace(st, at, target, visited); r.Some? ==> IsTrail(st, at, target, visited, r.value)
    decreases Unvisited(|st.wires|, visited), 1, 0
  {
    TryEachSound(st, at, target, visited, ConnectedWires(st.wires, at), 0);
  }

  lemma {:induction false} TryEachSound(st: State, at: Endpoint, target: Endpoint, visited: set<nat>, cands: seq<nat>, k: nat)
    requires Resolves(st)
    requires k <= |cands| && Candidates(st, at, cands)
    ensures var r := TryEach(st, at, target, visited, cands, k); r.Some? ==> IsTrail(st, at, target, visited, r.value)
    decreases Unvisited(|st.wires|, visited), 0, |cands| - k
  {
    if k < |cands| {
      var i := cands[k];
      if i in visited {
        TryEachSound(st, at, target, visited, cands, k + 1);
      } else {
        var nxt := Far(st.wires[i], at.compId);
        var c := Find(st.components, nxt.compId);
        if OpenSwitch(c) {
          TryEachSound(st, at, target, visited, cands, k + 1);
        } else if c.id == target.compId && nxt.side == target.side {
        } else {
          assert i in Unvisited(|st.wires|, visited);
          var next := Endpoint(c.id, Opposite(nxt.side));
          TraceSound(st, next, target, visited + {i});
          match Trace(st, next, target, visited + {i})
          case Some(rest) =>
            var p := [WireItem(i), CompItem(c.id)] + rest;
            assert p[2..] == rest;
          case None =>
            TryEachSound(st, at, target, visited, cands, k + 1);
        }
      }
    }
  }

  lemma {:induction false} TraceComplete(st: State, at: Endpoint, target: Endpoint, visited: set<nat>, p: seq<PathItem>)
    requires Resolves(st)
    requires IsTrail(st, at, target, visited, p)
    ensures Trace(st, at, target, visited).Some?
    decreases |p|, 1, 0
  {
    var cands := ConnectedWires(st.wires, at);
    var m :| 0 <= m < |cands| && cands[m] == p[0].index;
    TryEachComplete(st, at, target, visited, cands, 0, m, p);
  }

  lemma {:induction false} TryEachComplete(st: State, at: Endpoint, target: Endpoint, visited: set<nat>,
                                           cands: seq<nat>, k: nat, m: nat, p: seq<PathItem>)
    requires Resolves(st)
    requires Candidates(st, at, cands)
    requires k <= m < |cands|
    requires IsTrail(st, at, target, visited, p) && cands[m] == p[0].index
    ensures TryEach(st, at, target, visited, cands, k).Some?
    decreases |p|, 0, m - k
  {
    var i := cands[k];
    var nxt := Far(st.wires[i], at.compId);
    if k < m {
      if i in visited || OpenSwitch(Find(st.components, nxt.compId)) || nxt == target {
        TryEachComplete(st, at, target, visited, cands, k + 1, m, p);
      } else {
        assert i in Unvisited(|st.wires|, visited);
        if Trace(st, Endpoint(nxt.compId, Opposite(nxt.side)), target, visited + {i}).None? {
          TryEachComplete(st, at, target, visited, cands, k + 1, m, p);
        }
      }
    } else if nxt != target {
      assert i in Unvisited(|st.wires|, visited);
      TraceComplete(st, Endpoint(nxt.compId, Opposite(nxt.side)), target, visited + {i}, p[2..]);
    }
  }

  /** The search succeeds exactly when a trail exists, and what it appends
      to the path is such a trail. */
  lemma TraceCorrect(st: State, at: Endpoint, target: Endpoint, visited: set<nat>)
    requires Resolves(st)
    ensures Trace(st, at, target, visited).Some? <==> exists p :: IsTrail(st, at, target, visited, p)
    ensures Trace(st, at, target, visited).Some? ==> IsTrail(st, at, target, visited, Trace(st, at, target, visited).value)
  {
    TraceSound(st, at, target, visited);
    var r := Trace(st, at, target, visited);
    if r.Some? {
      var w := r.value;
      assert IsTrail(st, at, target, visited, w);
      assert exists p :: IsTrail(st, at, target, visited, p);
    } else {
      forall p | IsTrail(st, at, target, visited, p)
        ensures false
      {
        TraceComplete(st, at, target, visited, p);
      }
    }
  }

  /** The shape of a trail: odd length, wires at even positions and
      components at odd ones, no wire repeated or taken from `visited`, no
      open switch among the components passed, and the last wire touching
      the target terminal. */
  lemma {:induction false} TrailShape(st: State, at: Endpoint, target: Endpoint, visited: set<nat>, p: seq<PathItem>)
    requires Resolves(st)
    requires IsTrail(st, at, target, visited, p)
    ensures |p| % 2 == 1
    ensures forall j :: 0 <= j < |p| ==> (p[j].WireItem? <==> j % 2 == 0)
    ensures forall j :: 0 <= j < |p| && p[j].WireItem? ==> p[j].index < |st.wires| && p[j].index !in visited
    ensures forall j, l :: 0 <= j < l < |p| && p[j].WireItem? && p[l].WireItem? ==> p[j].index != p[l].index
    ensures forall j :: 0 <= j < |p| && p[j].CompItem? ==>
      HasId(st.components, p[j].id) && !OpenSwitch(Find(st.components, p[j].id))
    ensures p[|p| - 1].WireItem? && Touches(st.wires[p[|p| - 1].index], target)
    decreases |p|
  {
    var i := p[0].index;
    var nxt := Far(st.wires[i], at.compId);
    if nxt != target {
      var rest := p[2..];
      TrailShape(st, Endpoint(nxt.compId, Opposite(nxt.side)), target, visited + {i}, rest);
      assert forall j :: 2 <= j < |p| ==> p[j] == rest[j - 2];
    }
  }

  /** The search in game.js's imperative form: `visited` and `path` are
      threaded through, a wire is marked and the wire and the component it
      leads to are pushed before descending, and both are popped and the
      wire unmarked when the descent fails. On failure the caller gets back
      exactly the `visited` and `path` it passed in; on success, `path` has
      grown by the trail found. */
  method TracePath(st: State, at: Endpoint, target: Endpoint, visited: set<nat>, path: seq<PathItem>)
    returns (found: bool, visitedOut: set<nat>, pathOut: seq<PathItem>)
    requires Resolves(st)
    ensures found <==> Trace(st, at, target, visited).Some?
    ensures found ==> pathOut == path + Trace(st, at, target, visited).value
    ensures !found ==> visitedOut == visited && pathOut == path
    decreases Unvisited(|st.wires|, visited), 1
  {
    var connected := ConnectedWires(st.wires, at);
    visitedOut, pathOut := visited, path;
    var k := 0;
    while k < |connected|
      invariant k <= |connected|
      invariant visitedOut == visited && pathOut == path
      invariant TryEach(st, at, target, visited, connected, k) == Trace(st, at, target, visited)
    {
      found, visitedOut, pathOut := TryWire(st, at, target, visitedOut, connected, k, pathOut);
      if found {
        return;
      }
      k := k + 1;
    }
    return false, visitedOut, pathOut;
  }

  /** One turn of the search loop, for the wire at position `k` of the
      wires touching `at`. On failure `visited` and `path` are handed back
      as they came and the loop moves on; on success `path` has grown by
      what the search returns from this position. */
  method TryWire(st: State, at: Endpoint, target: Endpoint, visited: set<nat>, connected: seq<nat>, k: nat,
                 path: seq<PathItem>)
    returns (found: bool, visitedOut: set<nat>, pathOut: seq<PathItem>)
    requires Resolves(st)
    requires k < |connected| && Candidates(st, at, connected)
    ensures found ==> TryEach(st, at, target, visited, connected, k).Some?
    ensures found ==> pathOut == path + TryEach(st, at, target, visited, connected, k).value
    ensures !found ==> visitedOut == visited && pathOut == path
    ensures !found ==> TryEach(st, at, target, visited, connected, k) == TryEach(st, at, target, visited, connected, k + 1)
    decreases Unvisited(|st.wires|, visited), 0
  {
    visitedOut, pathOut := visited, path;
    var i := connected[k];
    if i in visitedOut {
      return false, visitedOut, pathOut;
    }
    var nxt := Far(st.wires[i], at.compId);
    var c := Find(st.components, nxt.compId);
    if OpenSwitch(c) {
      return false, visitedOut, pathOut;
    }
    if c.id == target.compId && nxt.side == target.side {
      pathOut := pathOut + [WireItem(i)];
      return true, visitedOut, pathOut;
    }
    var exit := Opposite(nxt.side);
    UnvisitedShrinks(|st.wires|, visited, i);
    visitedOut := visitedOut + {i};
    pathOut := pathOut + [WireItem(i)];
    pathOut := pathOut + [CompItem(c.id)];
    var ok, v2, p2 := TracePath(st, Endpoint(c.id, exit), target, visitedOut, pathOut);
    if ok {
      return true, v2, p2;
    }
    visitedOut, pathOut := v2, p2;
    pathOut := pathOut[..|pathOut| - 1];
    pathOut := pathOut[..|pathOut| - 1];
    assert pathOut == path;
    visitedOut := visitedOut - {i};
    assert visitedOut == visited;
    return false, visitedOut, pathOut;
  }
}
