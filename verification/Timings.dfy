/** Which timings a run reports: the result of a pass is keyed by layer, and of the tasks of one
    layer it keeps the timing of the one that ran first. */
module Timings {
  import opened Sequences
  import opened Digraphs
  import opened Scheduling
  import opened DynamicGraphs
  import opened LocalExecution
  import opened Options

  /** The timings that a run in this order reports, for a clock that gives every task its time. */
  ghost predicate Reports(order: seq<Invocation>, clock: Clock, timings: map<nat, Option<real>>) {
    FirstWins(LayersOf(order), TimingsOf(order, clock), timings)
  }

  ghost predicate SameButFor(b: Invocation, c1: Clock, c2: Clock) {
    forall i :: i != b ==> c1(i) == c2(i)
  }

  /** How long b takes makes no difference to what the run reports. */
  ghost predicate LeavesNoTrace(order: seq<Invocation>, b: Invocation) {
    forall c1, c2 :: SameButFor(b, c1, c2) ==> SameReports(order, c1, c2)
  }

  ghost predicate SameReports(order: seq<Invocation>, c1: Clock, c2: Clock) {
    forall t1, t2 :: Reports(order, c1, t1) && Reports(order, c2, t2) ==> t1 == t2
  }

  lemma {:induction false} FirstOccurrence(keys: seq<nat>, k: nat) returns (f: nat)
    requires k < |keys|
    ensures f <= k && keys[f] == keys[k] && keys[f] !in keys[..f]
  {
    if keys[k] in keys[..k] {
      var j :| 0 <= j < k && keys[j] == keys[k];
      f := FirstOccurrence(keys, j);
    } else {
      f := k;
    }
  }

  lemma {:induction false} SomethingIsReported(
      order: seq<Invocation>, clock: Clock)
    returns (timings: map<nat, Option<real>>)
    ensures Reports(order, clock, timings)
    decreases |order|
  {
    timings := map[];
    if order != [] {
      var done, i := order[..|order| - 1], order[|order| - 1];
      var earlier := SomethingIsReported(done, clock);
      AddTiming(LayersOf(done), TimingsOf(done, clock), earlier, i.node.layer, TimingOf(i, clock));
      LastTask(order, clock);
      timings := if i.node.layer in earlier then earlier else earlier[i.node.layer := TimingOf(i, clock)];
    }
  }

  lemma LastTask(order: seq<Invocation>, clock: Clock)
    requires order != []
    ensures var done, i := order[..|order| - 1], order[|order| - 1];
      && LayersOf(order) == LayersOf(done) + [i.node.layer]
      && TimingsOf(order, clock) == TimingsOf(done, clock) + [TimingOf(i, clock)]
  {
  }

  /** A task that is not the first of its layer leaves no trace. */
  lemma LaterTimingIsDropped(order: seq<Invocation>, a: Invocation, b: Invocation)
    requires NoDuplicates(order) && Before(order, a, b) && SameLayer(a, b)
    ensures LeavesNoTrace(order, b)
  {
    var keys := LayersOf(order);
    var i, j :| 0 <= i < j < |order| && order[i] == a && order[j] == b;
    forall c1, c2, t1, t2 | SameButFor(b, c1, c2) && Reports(order, c1, t1) && Reports(order, c2, t2) ensures t1 == t2 {
      forall l | l in keys ensures t1[l] == t2[l] {
        var k :| 0 <= k < |keys| && keys[k] == l;
        var f := FirstOccurrence(keys, k);
        assert keys[i] in keys[..j] && keys[i] == keys[j];
        assert f != j && order[f] != b;
        FirstOfItsLayer(order, c1, t1, f);
        FirstOfItsLayer(order, c2, t2, f);
      }
    }
  }

  /** What is reported for a layer is the timing of its first task. */
  lemma FirstOfItsLayer(order: seq<Invocation>, clock: Clock, timings: map<nat, Option<real>>, j: nat)
    requires Reports(order, clock, timings) && j < |order| && order[j].node.layer !in LayersOf(order)[..j]
    ensures order[j].node.layer in timings && timings[order[j].node.layer] == TimingOf(order[j], clock)
  {
    assert LayersOf(order)[j] in LayersOf(order);
  }

  lemma LeftTrace(
      order: seq<Invocation>, b: Invocation, c1: Clock, c2: Clock, t1: map<nat, Option<real>>, t2: map<nat,
      Option<real>>)
    requires SameButFor(b, c1, c2) && Reports(order, c1, t1) && Reports(order, c2, t2) && t1 != t2
    ensures !LeavesNoTrace(order, b)
  {
    assert !SameReports(order, c1, c2);
  }

  lemma NothingBeforeIt(order: seq<Invocation>, b: Invocation, j: nat)
    requires j < |order| && order[j] == b && forall a :: Before(order, a, b) ==> !SameLayer(a, b)
    ensures b.node.layer !in LayersOf(order)[..j]
  {
    if i :| 0 <= i < j && LayersOf(order)[i] == b.node.layer {
      assert Before(order, order[i], b);
    }
  }

  /** The first timed task of a layer is the one that is reported. */
  lemma FirstTimingIsReported(order: seq<Invocation>, b: Invocation)
    requires b in order && b.node.taskType in {Some(FWD), Some(BWD)}
    requires forall a :: Before(order, a, b) ==> !SameLayer(a, b)
    ensures !LeavesNoTrace(order, b)
  {
    var j :| 0 <= j < |order| && order[j] == b;
    NothingBeforeIt(order, b, j);
    var c1: Clock, c2: Clock := (i: Invocation) => None, (i: Invocation) => if i == b then Some(1.0) else None;
    var t1 := SomethingIsReported(order, c1);
    var t2 := SomethingIsReported(order, c2);
    FirstOfItsLayer(order, c1, t1, j);
    FirstOfItsLayer(order, c2, t2, j);
    LeftTrace(order, b, c1, c2, t1, t2);
  }

  /** In one order, a task leaves no trace exactly when another task of its layer runs before it. */
  lemma TracelessExactly(order: seq<Invocation>, b: Invocation)
    requires NoDuplicates(order) && b in order && b.node.taskType in {Some(FWD), Some(BWD)}
    ensures LeavesNoTrace(order, b) <==> exists a :: Before(order, a, b) && SameLayer(a, b)
  {
    if a :| Before(order, a, b) && SameLayer(a, b) {
      LaterTimingIsDropped(order, a, b);
    } else {
      FirstTimingIsReported(order, b);
    }
  }

  /** Over all orders: a task is never reported exactly when the graph leads from another task of
      its layer to it. */
  lemma NeverReportedExactly(g: DynamicGraph, b: Invocation)
    requires Acyclic(DataflowGraph(g)) && b in g && b.node.taskType in {Some(FWD), Some(BWD)}
    ensures (forall order :: IsTopologicalOrdering(DataflowGraph(g), order) ==> LeavesNoTrace(order, b))
      <==> exists a :: a in g && SameLayer(a, b) && Reaches(DataflowGraph(g), a, b)
  {
    var d := DataflowGraph(g);
    DataflowGraphIsWellFormed(g);
    if a :| a in g && SameLayer(a, b) && Reaches(d, a, b) {
      forall order | IsTopologicalOrdering(d, order) ensures LeavesNoTrace(order, b) {
        ReachesFollowsOrder(d, order, a, b);
        LaterTimingIsDropped(order, a, b);
      }
    } else {
      var order := AsEarlyAsPossible(d, b);
      forall a | Before(order, a, b) ensures !SameLayer(a, b) {
        assert a in order;
        if a != b && !Reaches(d, a, b) { BeforeAsymmetric(order, a, b); }
      }
      assert b in order;
      FirstTimingIsReported(order, b);
    }
  }

  /** And it is reported in every order exactly when the graph leads from it to every other task
      of its layer. */
  lemma AlwaysReportedExactly(g: DynamicGraph, b: Invocation)
    requires Acyclic(DataflowGraph(g)) && b in g && b.node.taskType in {Some(FWD), Some(BWD)}
    ensures (forall order :: IsTopologicalOrdering(DataflowGraph(g), order) ==> !LeavesNoTrace(order, b))
      <==> forall a :: a in g && a != b && SameLayer(a, b) ==> Reaches(DataflowGraph(g), b, a)
  {
    var d := DataflowGraph(g);
    DataflowGraphIsWellFormed(g);
    if a :| a in g && a != b && SameLayer(a, b) && !Reaches(d, b, a) {
      var order := AsLateAsPossible(d, b);
      LaterTimingIsDropped(order, a, b);
    } else {
      forall order | IsTopologicalOrdering(d, order) ensures !LeavesNoTrace(order, b) {
        forall a | Before(order, a, b) ensures !SameLayer(a, b) {
          assert a in order && a in g;
          BeforeIsBetweenTwo(order, a, b);
          if SameLayer(a, b) {
            ReachesFollowsOrder(d, order, b, a);
            BeforeAsymmetric(order, a, b);
          }
        }
        assert b in order;
        FirstTimingIsReported(order, b);
      }
    }
  }

  lemma BeforeIsBetweenTwo(order: seq<Invocation>, a: Invocation, b: Invocation)
    requires NoDuplicates(order) && Before(order, a, b)
    ensures a != b
  {
  }

  /** A layer's backward task reads the outputs of its forward task, so its timing is never
      reported in a combined run. */
  lemma BackwardTimingIsDropped(g: DynamicGraph, fwd: Invocation, bwd: Invocation)
    requires Acyclic(DataflowGraph(g)) && fwd in g && bwd in g && SameLayer(fwd, bwd)
    requires bwd.node.taskType in {Some(FWD), Some(BWD)}
    requires fwd.outputs.Values != {} && fwd.outputs.Values <= bwd.inputs.Values
    ensures forall order :: IsTopologicalOrdering(DataflowGraph(g), order) ==> LeavesNoTrace(order, bwd)
  {
    var v :| v in fwd.outputs.Values;
    assert v in fwd.outputs.Values * bwd.inputs.Values;
    EdgeReaches(DataflowGraph(g), fwd, bwd);
    NeverReportedExactly(g, bwd);
  }
}
