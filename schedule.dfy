/** The training schedule: one cache refresh before training; then, every epoch,
    the batch steps, the epoch-completed handlers in registration order (scheduler
    step and cache refresh, then the train, validation and test evaluations and the
    checkpoint decision). A checkpoint is written exactly when the validation
    accuracy strictly exceeds the best one so far, which starts at 0.

    The run is recorded as a trace of events. Model parameters, losses, the
    learning-rate values and the checkpoint file contents are not modelled: the
    encoder in force at each refresh and the validation accuracy of each epoch are
    inputs. */
module Schedule {
  import opened Indexing
  import Layout
  import opened FeatureCache

  datatype Split = TrainSplit | ValSplit | TestSplit

  /** What happens, and in which epoch (epoch 0 is the refresh before training). */
  datatype Event =
    | Step(epoch: nat, batch: seq<int>)
    | SchedulerStep(epoch: nat)
    | Refresh(epoch: nat)
    | Evaluate(epoch: nat, split: Split)
    | Checkpoint(epoch: nat)

  /** Position of an event kind within an epoch. */
  function Phase(ev: Event): nat
  {
    match ev
    case Step(_, _) => 0
    case SchedulerStep(_) => 1
    case Refresh(_) => 2
    case Evaluate(_, s) => (match s case TrainSplit => 3 case ValSplit => 4 case TestSplit => 5)
    case Checkpoint(_) => 6
  }

  predicate Precedes(x: Event, y: Event)
  {
    x.epoch < y.epoch || (x.epoch == y.epoch && Phase(x) <= Phase(y))
  }

  /** Events occur epoch by epoch, and within an epoch phase by phase. */
  predicate Ordered(t: seq<Event>)
  {
    forall p, q :: 0 <= p < q < |t| ==> Precedes(t[p], t[q])
  }

  // ----- best validation accuracy and checkpoints -----

  /** `best_val_acc` after the given epochs: 0 at first, replaced only by a strictly
      larger validation accuracy. */
  function BestAfter(accs: seq<real>): (best: real)
    ensures best >= 0.0
  {
    if accs == [] then 0.0
    else
      var prev := BestAfter(accs[..|accs| - 1]);
      if accs[|accs| - 1] > prev then accs[|accs| - 1] else prev
  }

  /** The (1-based) epochs after which a checkpoint is written. */
  function CheckpointEpochs(accs: seq<real>): (r: seq<nat>)
    ensures |r| <= |accs|
  {
    if accs == [] then []
    else
      var n := |accs| - 1;
      CheckpointEpochs(accs[..n]) + (if accs[n] > BestAfter(accs[..n]) then [n + 1] else [])
  }

  /** The best accuracy is the maximum of 0 and all accuracies seen. */
  lemma {:induction false} BestIsMax(accs: seq<real>)
    ensures BestAfter(accs) >= 0.0
    ensures forall k :: 0 <= k < |accs| ==> accs[k] <= BestAfter(accs)
    ensures BestAfter(accs) == 0.0 || exists k :: 0 <= k < |accs| && BestAfter(accs) == accs[k]
  {
    if accs != [] {
      var n := |accs| - 1;
      BestIsMax(accs[..n]);
      assert forall k :: 0 <= k < n ==> accs[..n][k] == accs[k];
      if BestAfter(accs[..n]) != 0.0 && accs[n] <= BestAfter(accs[..n]) {
        var k :| 0 <= k < n && BestAfter(accs[..n]) == accs[..n][k];
        assert BestAfter(accs) == accs[k];
      }
    }
  }

  /** Epoch `e` is checkpointed exactly when its accuracy is positive and strictly larger
      than every earlier accuracy. So a repeated or lower accuracy, or an accuracy of 0,
      never checkpoints. */
  lemma {:induction false} CheckpointIff(accs: seq<real>, e: nat)
    ensures e in CheckpointEpochs(accs) <==>
            1 <= e <= |accs| && accs[e - 1] > 0.0 && forall k :: 0 <= k < e - 1 ==> accs[k] < accs[e - 1]
  {
    if accs != [] {
      var n := |accs| - 1;
      CheckpointIff(accs[..n], e);
      BestIsMax(accs[..n]);
      assert forall k :: 0 <= k < n ==> accs[..n][k] == accs[k];
      if e == n + 1 {
        CheckpointBound(accs[..n]);
        assert e !in CheckpointEpochs(accs[..n]);
        if accs[n] <= BestAfter(accs[..n]) && BestAfter(accs[..n]) != 0.0 {
          var k :| 0 <= k < n && BestAfter(accs[..n]) == accs[..n][k];
        }
      }
    }
  }

  lemma {:induction false} CheckpointBound(accs: seq<real>)
    ensures forall i :: 0 <= i < |CheckpointEpochs(accs)| ==> 1 <= CheckpointEpochs(accs)[i] <= |accs|
  {
    if accs != [] {
      CheckpointBound(accs[..|accs| - 1]);
    }
  }

  /** A checkpointed epoch is one of the epochs run, and its accuracy is at most the best. */
  lemma CheckpointsAtMostBest(accs: seq<real>)
    ensures forall i :: 0 <= i < |CheckpointEpochs(accs)| ==>
              1 <= CheckpointEpochs(accs)[i] <= |accs| && accs[CheckpointEpochs(accs)[i] - 1] <= BestAfter(accs)
  {
    CheckpointBound(accs);
    BestIsMax(accs);
  }

  /** Checkpointed epochs come in increasing order with strictly increasing accuracies. */
  lemma {:induction false} CheckpointsIncrease(accs: seq<real>)
    ensures forall i, j :: 0 <= i < j < |CheckpointEpochs(accs)| ==>
              1 <= CheckpointEpochs(accs)[i] < CheckpointEpochs(accs)[j] <= |accs| &&
              accs[CheckpointEpochs(accs)[i] - 1] < accs[CheckpointEpochs(accs)[j] - 1]
  {
    if accs == [] {
      assert CheckpointEpochs(accs) == [];
    } else {
      var n := |accs| - 1;
      var pre := accs[..n];
      CheckpointsIncrease(pre);
      CheckpointsAtMostBest(pre);
      var cs0 := CheckpointEpochs(pre);
      var cs := CheckpointEpochs(accs);
      if accs[n] > BestAfter(pre) {
        assert cs == cs0 + [n + 1];
        forall i, j | 0 <= i < j < |cs|
          ensures 1 <= cs[i] < cs[j] <= |accs| && accs[cs[i] - 1] < accs[cs[j] - 1]
        {
          assert accs[cs0[i] - 1] == pre[cs0[i] - 1];
          if j < |cs0| {
            assert accs[cs0[j] - 1] == pre[cs0[j] - 1];
          }
        }
      } else {
        assert cs == cs0;
        forall i, j | 0 <= i < j < |cs|
          ensures 1 <= cs[i] < cs[j] <= |accs| && accs[cs[i] - 1] < accs[cs[j] - 1]
        {
          assert accs[cs0[i] - 1] == pre[cs0[i] - 1];
          assert accs[cs0[j] - 1] == pre[cs0[j] - 1];
        }
      }
    }
  }

  /** The best accuracy is that of the last checkpoint, or 0 if there is none. */
  lemma {:induction false} BestIsLastCheckpoint(accs: seq<real>)
    ensures forall i :: 0 <= i < |CheckpointEpochs(accs)| ==> 1 <= CheckpointEpochs(accs)[i] <= |accs|
    ensures var cs := CheckpointEpochs(accs);
            BestAfter(accs) == if cs == [] then 0.0 else accs[cs[|cs| - 1] - 1]
  {
    CheckpointBound(accs);
    if accs != [] {
      var n := |accs| - 1;
      var pre := accs[..n];
      BestIsLastCheckpoint(pre);
      CheckpointBound(pre);
      var cs0 := CheckpointEpochs(pre);
      if accs[n] <= BestAfter(pre) && cs0 != [] {
        assert accs[cs0[|cs0| - 1] - 1] == pre[cs0[|cs0| - 1] - 1];
      }
    }
  }

  /** Validation accuracies 0.70, 0.65, 0.80, 0.80, 0.75 checkpoint after epochs 1 and 3. */
  lemma CheckpointExample()
    ensures CheckpointEpochs([0.70, 0.65, 0.80, 0.80, 0.75]) == [1, 3]
    ensures BestAfter([0.70, 0.65, 0.80, 0.80, 0.75]) == 0.80
  {
    var a := [0.70, 0.65, 0.80, 0.80, 0.75];
    assert a[..0] == [];
    assert a[..1] == [0.70] && a[..1][..0] == [];
    assert a[..2] == [0.70, 0.65] && a[..2][..1] == a[..1];
    assert a[..3] == [0.70, 0.65, 0.80] && a[..3][..2] == a[..2];
    assert a[..4] == [0.70, 0.65, 0.80, 0.80] && a[..4][..3] == a[..3];
    assert a[..5] == a && a[..4] == a[..4];
    assert BestAfter(a[..1]) == 0.70;
    assert BestAfter(a[..2]) == 0.70;
    assert BestAfter(a[..3]) == 0.80;
    assert BestAfter(a[..4]) == 0.80;
    assert CheckpointEpochs(a[..1]) == [1];
    assert CheckpointEpochs(a[..2]) == [1];
    assert CheckpointEpochs(a[..3]) == [1, 3];
    assert CheckpointEpochs(a[..4]) == [1, 3];
  }

  // ----- the event trace of a run -----

  /** Epoch `e`: its batch steps in loader order, then the handlers registered for the
      end of an epoch, in registration order. */
  function EpochEvents(e: nat, batches: seq<seq<int>>, checkpoint: bool): (r: seq<Event>)
    ensures |r| == |batches| + 5 + (if checkpoint then 1 else 0)
  {
    seq(|batches|, j requires 0 <= j < |batches| => Step(e, batches[j]))
    + [SchedulerStep(e), Refresh(e), Evaluate(e, TrainSplit), Evaluate(e, ValSplit), Evaluate(e, TestSplit)]
    + (if checkpoint then [Checkpoint(e)] else [])
  }

  /** The events of the epochs run so far (epochs 1 .. |accs|). */
  function Epochs(batches: seq<seq<seq<int>>>, accs: seq<real>): seq<Event>
    requires |batches| == |accs|
  {
    if accs == [] then []
    else
      var n := |accs| - 1;
      Epochs(batches[..n], accs[..n]) + EpochEvents(n + 1, batches[n], accs[n] > BestAfter(accs[..n]))
  }

  /** A whole run: the refresh before training, then every epoch. */
  function RunTrace(batches: seq<seq<seq<int>>>, accs: seq<real>): (r: seq<Event>)
    requires |batches| == |accs|
    ensures |r| > 0 && r[0] == Refresh(0)
  {
    [Refresh(0)] + Epochs(batches, accs)
  }

  lemma {:induction false} EpochsBound(batches: seq<seq<seq<int>>>, accs: seq<real>)
    requires |batches| == |accs|
    ensures forall p :: 0 <= p < |Epochs(batches, accs)| ==> 1 <= Epochs(batches, accs)[p].epoch <= |accs|
  {
    if accs != [] {
      var n := |accs| - 1;
      EpochsBound(batches[..n], accs[..n]);
    }
  }

  /** The q-th event of an epoch belongs to that epoch; its phase is 0 for the batch
      steps and counts up by one for each handler event after them. */
  lemma EpochEventAt(e: nat, batches: seq<seq<int>>, checkpoint: bool, q: nat)
    requires q < |EpochEvents(e, batches, checkpoint)|
    ensures EpochEvents(e, batches, checkpoint)[q].epoch == e
    ensures Phase(EpochEvents(e, batches, checkpoint)[q]) == if q < |batches| then 0 else q - |batches| + 1
  {
  }

  lemma EpochEventsOrdered(e: nat, batches: seq<seq<int>>, checkpoint: bool)
    ensures Ordered(EpochEvents(e, batches, checkpoint))
    ensures forall p :: 0 <= p < |EpochEvents(e, batches, checkpoint)| ==> EpochEvents(e, batches, checkpoint)[p].epoch == e
  {
    var t := EpochEvents(e, batches, checkpoint);
    forall p | 0 <= p < |t|
      ensures t[p].epoch == e && Phase(t[p]) == if p < |batches| then 0 else p - |batches| + 1
    {
      EpochEventAt(e, batches, checkpoint, p);
    }
  }

  lemma OrderedAppend(x: seq<Event>, y: seq<Event>)
    requires Ordered(x) && Ordered(y)
    requires forall p, q :: 0 <= p < |x| && 0 <= q < |y| ==> x[p].epoch < y[q].epoch
    ensures Ordered(x + y)
  {
    var t := x + y;
    forall p, q | 0 <= p < q < |t|
      ensures Precedes(t[p], t[q])
    {
      if q < |x| {
        assert Precedes(x[p], x[q]);
      } else if p >= |x| {
        assert Precedes(y[p - |x|], y[q - |x|]);
      } else {
        assert x[p].epoch < y[q - |x|].epoch;
      }
    }
  }

  /** Every event of a run comes after every event of an earlier epoch and after the
      earlier phases of its own epoch: all batch steps precede the scheduler step and
      the refresh, which precede the three evaluations and the checkpoint decision. */
  lemma {:induction false} RunTraceOrdered(batches: seq<seq<seq<int>>>, accs: seq<real>)
    requires |batches| == |accs|
    ensures Ordered(RunTrace(batches, accs))
  {
    EpochsOrdered(batches, accs);
    EpochsBound(batches, accs);
    OrderedAppend([Refresh(0)], Epochs(batches, accs));
  }

  lemma {:induction false} EpochsOrdered(batches: seq<seq<seq<int>>>, accs: seq<real>)
    requires |batches| == |accs|
    ensures Ordered(Epochs(batches, accs))
  {
    if accs != [] {
      var n := |accs| - 1;
      var ck := accs[n] > BestAfter(accs[..n]);
      EpochsOrdered(batches[..n], accs[..n]);
      EpochsBound(batches[..n], accs[..n]);
      EpochEventsOrdered(n + 1, batches[n], ck);
      OrderedAppend(Epochs(batches[..n], accs[..n]), EpochEvents(n + 1, batches[n], ck));
    }
  }

  /** Number of cache refreshes in a trace. */
  function Refreshes(t: seq<Event>): nat
  {
    if t == [] then 0 else Refreshes(t[..|t| - 1]) + (if t[|t| - 1].Refresh? then 1 else 0)
  }

  lemma {:induction false} RefreshesAppend(x: seq<Event>, y: seq<Event>)
    ensures Refreshes(x + y) == Refreshes(x) + Refreshes(y)
  {
    if y != [] {
      var n := |y| - 1;
      RefreshesAppend(x, y[..n]);
      assert (x + y)[..|x + y| - 1] == x + y[..n];
      assert (x + y)[|x + y| - 1] == y[n];
    } else {
      assert x + y == x;
    }
  }

  /** Within an epoch, the refresh is after the steps and the scheduler step and before
      the evaluations and the checkpoint. */
  lemma {:induction false} EpochRefreshes(e: nat, batches: seq<seq<int>>, checkpoint: bool, p: nat)
    requires p <= |EpochEvents(e, batches, checkpoint)|
    ensures Refreshes(EpochEvents(e, batches, checkpoint)[..p]) == if p > |batches| + 1 then 1 else 0
  {
    var t := EpochEvents(e, batches, checkpoint);
    if p > 0 {
      EpochRefreshes(e, batches, checkpoint, p - 1);
      assert t[..p][..p - 1] == t[..p - 1];
      EpochEventAt(e, batches, checkpoint, p - 1);
      assert t[p - 1].Refresh? <==> Phase(t[p - 1]) == 2;
    }
  }

  lemma {:induction false} EpochsRefreshCount(batches: seq<seq<seq<int>>>, accs: seq<real>)
    requires |batches| == |accs|
    ensures Refreshes(Epochs(batches, accs)) == |accs|
  {
    if accs != [] {
      var n := |accs| - 1;
      var ev := EpochEvents(n + 1, batches[n], accs[n] > BestAfter(accs[..n]));
      EpochsRefreshCount(batches[..n], accs[..n]);
      RefreshesAppend(Epochs(batches[..n], accs[..n]), ev);
      EpochRefreshes(n + 1, batches[n], accs[n] > BestAfter(accs[..n]), |ev|);
      assert ev[..|ev|] == ev;
    }
  }

  /** Staleness bound: a batch step of epoch e runs after exactly e refreshes (the one
      before training and one after each earlier epoch), and an evaluation or checkpoint
      decision of epoch e runs after e + 1, the last being the refresh that follows
      epoch e's own steps. The whole run refreshes once more than it has epochs. */
  lemma {:induction false} RefreshesBefore(batches: seq<seq<seq<int>>>, accs: seq<real>, p: nat)
    requires |batches| == |accs| && p < |RunTrace(batches, accs)|
    ensures var t := RunTrace(batches, accs);
            Refreshes(t[..p]) == t[p].epoch + (if Phase(t[p]) > Phase(Refresh(0)) then 1 else 0)
    ensures Refreshes(RunTrace(batches, accs)) == |accs| + 1
  {
    var t := RunTrace(batches, accs);
    EpochsRefreshCount(batches, accs);
    RefreshesAppend([Refresh(0)], Epochs(batches, accs));
    assert [Refresh(0)][..0] == [];
    if p > 0 {
      EpochsRefreshesBefore(batches, accs, p - 1);
      assert t[..p] == [Refresh(0)] + Epochs(batches, accs)[..p - 1];
      RefreshesAppend([Refresh(0)], Epochs(batches, accs)[..p - 1]);
    }
  }

  lemma {:induction false} EpochsRefreshesBefore(batches: seq<seq<seq<int>>>, accs: seq<real>, p: nat)
    requires |batches| == |accs| && p < |Epochs(batches, accs)|
    ensures var t := Epochs(batches, accs);
            Refreshes(t[..p]) == t[p].epoch - 1 + (if Phase(t[p]) > Phase(Refresh(0)) then 1 else 0)
  {
    var n := |accs| - 1;
    var prev := Epochs(batches[..n], accs[..n]);
    var ev := EpochEvents(n + 1, batches[n], accs[n] > BestAfter(accs[..n]));
    var t := Epochs(batches, accs);
    assert t == prev + ev;
    if p < |prev| {
      EpochsRefreshesBefore(batches[..n], accs[..n], p);
      assert t[..p] == prev[..p];
    } else {
      EpochsRefreshCount(batches[..n], accs[..n]);
      AppendedEpochRefreshes(prev, n + 1, batches[n], accs[n] > BestAfter(accs[..n]), p - |prev|);
    }
  }

  lemma AppendedEpochRefreshes(prev: seq<Event>, e: nat, batches: seq<seq<int>>, checkpoint: bool, q: nat)
    requires q < |EpochEvents(e, batches, checkpoint)|
    ensures var ev := EpochEvents(e, batches, checkpoint);
            Refreshes((prev + ev)[..|prev| + q]) == Refreshes(prev) + (if Phase(ev[q]) > Phase(Refresh(0)) then 1 else 0)
    ensures EpochEvents(e, batches, checkpoint)[q].epoch == e
  {
    var ev := EpochEvents(e, batches, checkpoint);
    EpochRefreshes(e, batches, checkpoint, q);
    assert (prev + ev)[..|prev| + q] == prev + ev[..q];
    RefreshesAppend(prev, ev[..q]);
    EpochEventAt(e, batches, checkpoint, q);
  }

  /** Epochs of the checkpoint events of a trace, in order. */
  function Checkpoints(t: seq<Event>): seq<nat>
  {
    if t == [] then []
    else Checkpoints(t[..|t| - 1]) + (if t[|t| - 1].Checkpoint? then [t[|t| - 1].epoch] else [])
  }

  lemma {:induction false} CheckpointsAppend(x: seq<Event>, y: seq<Event>)
    ensures Checkpoints(x + y) == Checkpoints(x) + Checkpoints(y)
  {
    if y != [] {
      var n := |y| - 1;
      CheckpointsAppend(x, y[..n]);
      assert (x + y)[..|x + y| - 1] == x + y[..n];
      assert (x + y)[|x + y| - 1] == y[n];
    } else {
      assert x + y == x;
    }
  }

  lemma {:induction false} NoCheckpoints(t: seq<Event>)
    requires forall p :: 0 <= p < |t| ==> !t[p].Checkpoint?
    ensures Checkpoints(t) == []
  {
    if t != [] {
      NoCheckpoints(t[..|t| - 1]);
    }
  }

  /** A run writes checkpoints after exactly the epochs the best-accuracy rule picks. */
  lemma {:induction false} RunCheckpoints(batches: seq<seq<seq<int>>>, accs: seq<real>)
    requires |batches| == |accs|
    ensures Checkpoints(RunTrace(batches, accs)) == CheckpointEpochs(accs)
  {
    EpochsCheckpoints(batches, accs);
    CheckpointsAppend([Refresh(0)], Epochs(batches, accs));
    NoCheckpoints([Refresh(0)]);
  }

  /** An epoch writes one checkpoint, its own, exactly when it is flagged. */
  lemma EpochCheckpoints(e: nat, batches: seq<seq<int>>, checkpoint: bool)
    ensures Checkpoints(EpochEvents(e, batches, checkpoint)) == if checkpoint then [e] else []
  {
    var steps := seq(|batches|, j requires 0 <= j < |batches| => Step(e, batches[j]));
    var fixed := [SchedulerStep(e), Refresh(e), Evaluate(e, TrainSplit), Evaluate(e, ValSplit), Evaluate(e, TestSplit)];
    var tail: seq<Event> := if checkpoint then [Checkpoint(e)] else [];
    assert EpochEvents(e, batches, checkpoint) == (steps + fixed) + tail;
    CheckpointsAppend(steps + fixed, tail);
    NoCheckpoints(steps + fixed);
    if checkpoint {
      assert Checkpoints(tail) == Checkpoints([]) + [e];
    }
  }

  lemma {:induction false} EpochsCheckpoints(batches: seq<seq<seq<int>>>, accs: seq<real>)
    requires |batches| == |accs|
    ensures Checkpoints(Epochs(batches, accs)) == CheckpointEpochs(accs)
  {
    if accs != [] {
      var n := |accs| - 1;
      var ck := accs[n] > BestAfter(accs[..n]);
      EpochsCheckpoints(batches[..n], accs[..n]);
      CheckpointsAppend(Epochs(batches[..n], accs[..n]), EpochEvents(n + 1, batches[n], ck));
      EpochCheckpoints(n + 1, batches[n], ck);
    }
  }

  /** The batches of an epoch are an arbitrary ordering of `doc_idx` cut into batches:
      together they hold every document node exactly once and no word node. */
  lemma EpochBatchesCoverDocs(c: Layout.Counts, order: seq<int>, batchSize: nat, i: int)
    requires Layout.Consistent(c) && batchSize > 0
    requires multiset(order) == multiset(Layout.DocIdx(c))
    ensures multiset(Concat(Chunks(order, batchSize)))[i] ==
              if 0 <= i < c.nbNode && i !in Layout.WordIdx(c) then 1 else 0
  {
    var batches := Chunks(order, batchSize);
    assert multiset(Concat(batches))[i] == multiset(Layout.DocIdx(c))[i];
    Layout.DocIdxOnce(c, i);
    ArangeMembership(c.nbTrain + c.nbVal, c.nbNode - c.nbTest, i);
    assert (0 <= i < c.nbNode && i !in Layout.WordIdx(c)) <==>
           (0 <= i < c.nbTrain + c.nbVal || c.nbNode - c.nbTest <= i < c.nbNode);
  }

  /** One more epoch extends the trace by that epoch's events and updates the best
      accuracy by that epoch's validation accuracy. */
  lemma RunTraceSnoc(batches: seq<seq<seq<int>>>, accs: seq<real>, e: nat)
    requires |batches| == |accs| && e < |accs|
    ensures RunTrace(batches[..e + 1], accs[..e + 1]) ==
              RunTrace(batches[..e], accs[..e]) + EpochEvents(e + 1, batches[e], accs[e] > BestAfter(accs[..e]))
    ensures BestAfter(accs[..e + 1]) == if accs[e] > BestAfter(accs[..e]) then accs[e] else BestAfter(accs[..e])
  {
    assert batches[..e + 1][..e] == batches[..e] && accs[..e + 1][..e] == accs[..e];
  }

  // ----- the training context -----

  /** The state the script keeps across epochs: the graph with its cache, the best
      validation accuracy (an attribute of the logging handler), and the events so far. */
  class Trainer {
    const graph: Graph
    var bestValAcc: real
    var trace: seq<Event>

    ghost predicate Valid()
      reads graph.clsFeats
    {
      graph.Valid()
    }

    /** `log_training_results.best_val_acc = 0` */
    constructor (graph: Graph)
      ensures this.graph == graph && bestValAcc == 0.0 && trace == []
    {
      this.graph := graph;
      bestValAcc := 0.0;
      trace := [];
    }

    /** `update_feature()`: refresh every document row of the cache with `encode`. */
    method UpdateFeature(epoch: nat, encode: Encoder)
      requires Valid()
      modifies this`trace, graph.clsFeats
      ensures Valid() && graph.RefreshedWith(encode)
      ensures trace == old(trace) + [Refresh(epoch)]
    {
      graph.Refresh(encode);
      trace := trace + [Refresh(epoch)];
    }

    /** The batch holds only document nodes of the graph, as every batch drawn from
        `doc_idx` does. */
    predicate OnDocNodes(batch: seq<int>)
    {
      forall k :: 0 <= k < |batch| ==> 0 <= batch[k] < |graph.docMask| && graph.docMask[batch[k]]
    }

    /** `train_step` on one batch: the forward pass, run with the encoder of this step,
        overwrites the batch's cache rows with fresh encodings (the parameter update is
        not modelled). */
    method TrainStep(epoch: nat, batch: seq<int>, encode: Encoder)
      requires Valid()
      requires forall k :: 0 <= k < |batch| ==> 0 <= batch[k] < graph.clsFeats.Length
      modifies this`trace, graph.clsFeats
      ensures forall i :: 0 <= i < graph.clsFeats.Length ==>
                graph.clsFeats[i] == if i in batch then encode(graph.tokens[i]) else old(graph.clsFeats[i])
      ensures OnDocNodes(batch) ==> Valid()
      ensures trace == old(trace) + [Step(epoch, batch)]
    {
      graph.WriteRows(batch, encode);
      trace := trace + [Step(epoch, batch)];
    }

    /** `reset_graph`: scheduler step, then cache refresh. */
    method ResetGraph(epoch: nat, encode: Encoder)
      requires Valid()
      modifies this`trace, graph.clsFeats
      ensures Valid() && graph.RefreshedWith(encode)
      ensures trace == old(trace) + [SchedulerStep(epoch), Refresh(epoch)]
    {
      trace := trace + [SchedulerStep(epoch)];
      UpdateFeature(epoch, encode);
    }

    /** `log_training_results`: evaluate the three splits, then checkpoint and record the
        new best when the validation accuracy strictly improves on the best so far. */
    method LogTrainingResults(epoch: nat, valAcc: real) returns (saved: bool)
      modifies this`trace, this`bestValAcc
      ensures saved == (valAcc > old(bestValAcc))
      ensures bestValAcc == if saved then valAcc else old(bestValAcc)
      ensures trace == old(trace) + [Evaluate(epoch, TrainSplit), Evaluate(epoch, ValSplit), Evaluate(epoch, TestSplit)]
                       + (if saved then [Checkpoint(epoch)] else [])
    {
      trace := trace + [Evaluate(epoch, TrainSplit), Evaluate(epoch, ValSplit), Evaluate(epoch, TestSplit)];
      saved := valAcc > bestValAcc;
      if saved {
        trace := trace + [Checkpoint(epoch)];
        bestValAcc := valAcc;
      }
    }

    /** One epoch of `trainer.run`: a training step per batch, then the end-of-epoch
        handlers `reset_graph` and `log_training_results`, in registration order. */
    method RunEpoch(epoch: nat, batches: seq<seq<int>>, stepEncoders: seq<Encoder>, encode: Encoder, valAcc: real)
      returns (saved: bool)
      requires Valid()
      requires |stepEncoders| == |batches| && forall j :: 0 <= j < |batches| ==> OnDocNodes(batches[j])
      modifies this`trace, this`bestValAcc, graph.clsFeats
      ensures Valid() && graph.RefreshedWith(encode)
      ensures saved == (valAcc > old(bestValAcc))
      ensures bestValAcc == if saved then valAcc else old(bestValAcc)
      ensures trace == old(trace) + EpochEvents(epoch, batches, saved)
    {
      for j := 0 to |batches|
        invariant Valid() && bestValAcc == old(bestValAcc)
        invariant trace == old(trace) + seq(j, k requires 0 <= k < j => Step(epoch, batches[k]))
      {
        TrainStep(epoch, batches[j], stepEncoders[j]);
      }
      ResetGraph(epoch, encode);
      saved := LogTrainingResults(epoch, valAcc);
    }

    /** The top level: refresh once, then run every epoch with the given batches.
        `encoders[e]` is the encoder after epoch e, `stepEncoders[e - 1][j]` the encoder
        in force at step j of epoch e, `valAccs[e - 1]` epoch e's validation accuracy. */
    method Run(encoders: seq<Encoder>, stepEncoders: seq<seq<Encoder>>, batches: seq<seq<seq<int>>>, valAccs: seq<real>)
      requires Valid() && trace == [] && bestValAcc == 0.0
      requires |batches| == |valAccs| && |encoders| == |valAccs| + 1 && |stepEncoders| == |batches|
      requires forall e :: 0 <= e < |batches| ==> |stepEncoders[e]| == |batches[e]|
      requires forall e, j :: 0 <= e < |batches| && 0 <= j < |batches[e]| ==> OnDocNodes(batches[e][j])
      modifies this`trace, this`bestValAcc, graph.clsFeats
      ensures Valid() && graph.RefreshedWith(encoders[|valAccs|])
      ensures trace == RunTrace(batches, valAccs)
      ensures bestValAcc == BestAfter(valAccs)
    {
      UpdateFeature(0, encoders[0]);
      assert batches[..0] == [] && valAccs[..0] == [];
      for e := 0 to |valAccs|
        invariant Valid() && graph.RefreshedWith(encoders[e])
        invariant trace == RunTrace(batches[..e], valAccs[..e])
        invariant bestValAcc == BestAfter(valAccs[..e])
      {
        RunTraceSnoc(batches, valAccs, e);
        var saved := RunEpoch(e + 1, batches[e], stepEncoders[e], encoders[e + 1], valAccs[e]);
      }
      assert batches[..|valAccs|] == batches && valAccs[..|valAccs|] == valAccs;
    }
  }
}
