/**
 The master's message loop body and the three versions of curve_subarea as the programs run
 them: fields and result arrays updated in place. Proved against the farm's steps.
 */
module QuadProgram {
  import opened Base
  import opened QuadArea
  import F = QuadFarm

  // ----- curve_subarea -----

  // The sequential version returns the area. `t` is the recursion's shape and costs nothing.
  method CurveSubarea(p: Problem, ghost t: Tree, a: real, b: real, area: real) returns (r: real)
    requires IsTree(p, t, a, b) && area == Trap(p, a, b)
    ensures r == Area(p, a, b)
    decreases t
  {
    var m := Mid(a, b);
    var l_area, r_area := Trap(p, a, m), Trap(p, m, b);
    var error := area - (l_area + r_area);
    if (if error < 0.0 then -error else error) <= p.tol {
      LeafFacts(p, a, b);
      r := l_area + r_area;
    } else {
      SplitFacts(p, a, b);
      var left := CurveSubarea(p, t.left, a, m, l_area);
      var right := CurveSubarea(p, t.right, m, b, r_area);
      r := left + right;
    }
  }

  // What a worker sends from the start of a task to its report.
  ghost function Sends(p: Problem, v: F.Version, t: Tree, a: real, b: real, may: bool): seq<F.Msg> {
    if may && t.Node? then
      [F.AddTask(Mid(a, b), b)] + Sends(p, v, t.left, a, Mid(a, b), v.Every?)
    else [F.Available(Area(p, a, b), b - a)]
  }

  // The farm's worker sends tasks only until it reaches the leftmost leaf, and reports that leaf.
  lemma {:induction false} EverySends(p: Problem, t: Tree, a: real, b: real)
    requires IsTree(p, t, a, b)
    ensures
      var s, x := Sends(p, F.Every, t, a, b, true), TreeLeaves(t, a, b)[0];
      && s != [] && s[|s| - 1] == F.Available(Halves(p, x.0, x.1), x.1 - x.0)
      && forall i :: 0 <= i < |s| - 1 ==> s[i].AddTask?
    decreases t
  {
    match t
    case Leaf => LeafFacts(p, a, b);
    case Node(l, r) => EverySends(p, l, a, Mid(a, b));
  }

  // The second version's worker sends one task at most, the right half, and reports the rest.
  lemma FirstSends(p: Problem, t: Tree, a: real, b: real, may: bool)
    ensures
      Sends(p, F.First, t, a, b, may) ==
        if may && t.Node? then [F.AddTask(Mid(a, b), b), F.Available(Area(p, a, Mid(a, b)), Mid(a, b) - a)]
        else [F.Available(Area(p, a, b), b - a)]
  {
  }

  // The farm's work steps send exactly these messages and end waiting.
  lemma {:induction false} WorkStepsSend(c: F.Config, t: Tree, wk: F.Worker) returns (n: nat)
    requires wk.phase.Working? && IsTree(c.p, t, wk.phase.a, wk.phase.b)
    ensures Worked(c, wk, n) ==
            F.Worker(F.Waiting, wk.inbox, wk.outbox + Sends(c.p, c.version, t, wk.phase.a, wk.phase.b, wk.phase.may))
    decreases t
  {
    var a, b := wk.phase.a, wk.phase.b;
    var wk' := F.Advance(c, wk).0;
    if wk.phase.may && t.Node? {
      var k := WorkStepsSend(c, t.left, wk');
      n := k + 1;
      assert wk.outbox + ([F.AddTask(Mid(a, b), b)] + Sends(c.p, c.version, t.left, a, Mid(a, b), c.version.Every?))
          == wk'.outbox + Sends(c.p, c.version, t.left, a, Mid(a, b), c.version.Every?);
    } else {
      n := 1;
      assert Worked(c, wk, 1) == Worked(c, wk', 0);
    }
  }

  // n work steps of one worker.
  ghost function Worked(c: F.Config, wk: F.Worker, n: nat): F.Worker
    decreases n
  {
    if n == 0 || !wk.phase.Working? then wk else Worked(c, F.Advance(c, wk).0, n - 1)
  }

  ghost function Adds(sent: seq<Interval>): seq<F.Msg> {
    if sent == [] then [] else [F.AddTask(sent[0].0, sent[0].1)] + Adds(sent[1..])
  }

  lemma AddsCons(x: Interval, rest: seq<Interval>)
    ensures Adds([x] + rest) == [F.AddTask(x.0, x.1)] + Adds(rest)
  {
    assert ([x] + rest)[1..] == rest;
  }

  // The farm's version sends every right half back and writes the leftmost leaf's area and
  // width into `result`.
  method CurveSubareaEvery(p: Problem, ghost t: Tree, a: real, b: real, area: real, result: array<real>)
      returns (sent: seq<Interval>)
    requires IsTree(p, t, a, b) && area == Trap(p, a, b) && result.Length >= 2
    modifies result
    ensures Adds(sent) + [F.Available(result[0], result[1])] == Sends(p, F.Every, t, a, b, true)
    decreases t
  {
    var m := Mid(a, b);
    var l_area, r_area := Trap(p, a, m), Trap(p, m, b);
    var error := area - (l_area + r_area);
    if (if error < 0.0 then -error else error) <= p.tol {
      LeafFacts(p, a, b);
      result[0] := l_area + r_area;
      result[1] := b - a;
      sent := [];
    } else {
      var more := CurveSubareaEvery(p, t.left, a, m, l_area, result);
      sent := [(m, b)] + more;
      AddsCons((m, b), more);
      assert Adds(sent) + [F.Available(result[0], result[1])]
          == [F.AddTask(m, b)] + (Adds(more) + [F.Available(result[0], result[1])]);
    }
  }

  // The second version sends back at most one right half and accumulates the rest.
  method CurveSubareaFirst(p: Problem, ghost t: Tree, a: real, b: real, area: real, result: array<real>, may: bool)
      returns (sent: seq<Interval>)
    requires IsTree(p, t, a, b) && area == Trap(p, a, b) && result.Length >= 2
    modifies result
    ensures Adds(sent) + [F.Available(result[0], result[1])] == Sends(p, F.First, t, a, b, may)
    ensures !may ==> sent == [] && result[0] == Area(p, a, b) && result[1] == b - a
    decreases t
  {
    var m := Mid(a, b);
    var l_area, r_area := Trap(p, a, m), Trap(p, m, b);
    var error := area - (l_area + r_area);
    sent := [];
    if (if error < 0.0 then -error else error) <= p.tol {
      LeafFacts(p, a, b);
      result[0] := l_area + r_area;
      result[1] := b - a;
    } else if may {
      var more := CurveSubareaFirst(p, t.left, a, m, l_area, result, false);
      sent := [(m, b)];
      AddsCons((m, b), []);
      assert [(m, b)] + [] == sent;
    } else {
      SplitFacts(p, a, b);
      var none := CurveSubareaFirst(p, t.left, a, m, l_area, result, false);
      var temp := new real[2](_ => 0.0);
      none := CurveSubareaFirst(p, t.right, m, b, r_area, temp, false);
      result[0] := result[0] + temp[0];
      result[1] := result[1] + temp[1];
    }
  }

  // ----- the master -----

  lemma NextTask(c: F.Config, n: nat, i: nat, w: real)
    requires i < n && w == (c.r - c.l) / n as real
    ensures F.InitialTasks(c, n)[..i + 1] ==
            F.InitialTasks(c, n)[..i] + [(c.l + i as real * w, c.l + (i + 1) as real * w)]
  {
    assert F.StartOf(c, n, i) == c.l + i as real * w;
    assert F.StartOf(c, n, i + 1) == c.l + (i + 1) as real * w;
  }

  class Master {
    var idle: int
    const availableWorkers: array<bool>
    var stack: seq<Interval>
    var progress: real
    var total_area: real
    var found: bool

    ghost function View(): F.Master
      reads this, availableWorkers
    {
      F.Master(idle, availableWorkers[..], stack, progress, total_area, if found then F.Listening else F.NotFound)
    }

    // main pushes one task per process, from left to right; all flags start at 1.
    constructor (c: F.Config, workers: nat)
      ensures View() == F.InitialState(c, workers).master
      ensures fresh(availableWorkers)
    {
      idle, progress, total_area, found := 0, 0.0, 0.0, true;
      availableWorkers := new bool[workers](_ => true);
      stack := [];
      new;
      var n := workers + 1;
      var w := (c.r - c.l) / n as real;
      hide F.InitialTasks;
      for i := 0 to n
        invariant stack == F.InitialTasks(c, n)[..i]
        invariant idle == 0 && progress == 0.0 && total_area == 0.0 && found
        invariant forall k :: 0 <= k < workers ==> availableWorkers[k]
      {
        var a, b := c.l + i as real * w, c.l + (i + 1) as real * w;
        stack := stack + [(a, b)];
        NextTask(c, n, i, w);
      }
      assert availableWorkers[..] == seq(workers, i => true);
    }

    // One message received from worker w (counted from 0), up to the end test.
    method Receive(w: nat, msg: F.Msg) returns (send: Option<(nat, Interval)>)
      requires w < availableWorkers.Length && found
      modifies this, availableWorkers
      ensures (View(), send) == F.Handle(old(View()), w, msg)
    {
      ghost var was := View();
      send := None;
      match msg
      case Available(area, width) =>
        total_area := total_area + area;
        progress := progress + width;
        idle := idle + 1;
        availableWorkers[w] := true;
        if stack != [] {
          var node := stack[|stack| - 1];
          stack := stack[..|stack| - 1];
          idle := idle - 1;
          availableWorkers[w] := false;
          send := Some((w, node));
          assert availableWorkers[..] == was.avail[w := false];
        } else {
          assert availableWorkers[..] == was.avail[w := true];
        }
      case AddTask(a, b) =>
        if idle != 0 {
          var next := 0;
          while next < availableWorkers.Length && !availableWorkers[next]
            invariant 0 <= next <= availableWorkers.Length
            invariant forall k :: 0 <= k < next ==> !availableWorkers[k]
          {
            next := next + 1;
          }
          assert next == F.FirstAvail(was.avail);
          if next == availableWorkers.Length {
            found := false;
          } else {
            idle := idle - 1;
            send := Some((next, (a, b)));
          }
        } else {
          stack := stack + [(a, b)];
        }
    }
  }
}
