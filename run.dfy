/**
 * The top-level run loop: select a batch, click the bulk `Unlike` control,
 * confirm, wait for the toast, add the batch to `totalUnliked`, and either stop
 * or re-enter selection mode for the next batch.
 *
 * Each iteration of the loop is given as input: the page the batch selects
 * from, and the elements the loop's find helpers then see.
 */
module RunLoop {
  import opened Wrappers
  import opened Boxes
  import opened Matchers
  import opened Batch

  /** The elements one iteration's find helpers see. */
  datatype Controls = Controls(
    bulkCandidates: seq<ElementStyle>,  // the bulk `Unlike` buttons, after the batch
    dialogs: seq<seq<string>>,          // the button labels of each open dialog, after the bulk click
    toastCandidates: seq<string>,       // the texts of the toast candidates while waiting
    spans: seq<string>)                 // the span texts, when re-entering selection mode

  datatype Iteration = Iteration(views: seq<seq<Box>>, controls: Controls)

  datatype StopReason =
    | NothingSelected   // a batch selected no post
    | NoBulkButton      // no enabled bulk `Unlike` control
    | EndOfList         // a batch below the cap ended at the end of the list
    | NoSelectButton    // no `Select` control to start the next batch
    | InputExhausted    // the given iterations ran out

  datatype Outcome = Continue | Stop(reason: StopReason)

  /**
   * What one iteration did: its batch, the rounds of that batch, whether it
   * clicked the bulk control, and the two best-effort steps after that click.
   */
  datatype IterationLog = IterationLog(
    batch: BatchResult,
    rounds: seq<RoundLog>,
    triggered: bool,                   // whether the bulk `Unlike` control was clicked
    confirmation: Option<(nat, nat)>,  // the popup `Unlike` button clicked, if any
    acknowledged: bool)                // whether the toast was seen

  /** The run loop's decision after a batch, given whether the bulk control and the `Select` control are on the page. */
  function Decision(b: BatchResult, bulkFound: bool, selectFound: bool): Outcome
  {
    if b.selectedInBatch == 0 then Stop(NothingSelected)
    else if !bulkFound then Stop(NoBulkButton)
    else if b.endOfList && b.selectedInBatch < BATCH_LIMIT then Stop(EndOfList)
    else if !selectFound then Stop(NoSelectButton)
    else Continue
  }

  /** The run loop's decision after a batch, on the controls the page shows. */
  function Decide(b: BatchResult, c: Controls): Outcome
  {
    Decision(b, FindBulkUnlikeButton(c.bulkCandidates).Some?, FindSelectButton(c.spans).Some?)
  }

  /** Whether the iteration reaches the bulk click, and therefore adds its batch to `totalUnliked`. */
  predicate Triggered(b: BatchResult, c: Controls)
  {
    b.selectedInBatch > 0 && FindBulkUnlikeButton(c.bulkCandidates).Some?
  }

  /** What an iteration adds to `totalUnliked`. */
  function Unliked(b: BatchResult, c: Controls): nat
  {
    if Triggered(b, c) then b.selectedInBatch else 0
  }

  /**
   * The bulk click is recorded as it happened; the best-effort steps are taken
   * exactly after it, and what they found is recorded. Without a click the
   * popup and the toast are never looked up.
   */
  predicate SoftSteps(e: IterationLog, c: Controls)
  {
    e.triggered == Triggered(e.batch, c) &&
    if e.triggered then
      e.confirmation == FindPopupUnlikeButton(c.dialogs) && e.acknowledged == ToastShown(c.toastCandidates)
    else
      e.confirmation.None? && !e.acknowledged
  }

  /** `totalUnliked` after the iterations of `log`. */
  function Gained(inputs: seq<Iteration>, log: seq<IterationLog>): nat
    requires |log| <= |inputs|
  {
    if log == [] then 0
    else Gained(inputs, log[..|log| - 1]) + Unliked(log[|log| - 1].batch, inputs[|log| - 1].controls)
  }

  /** The iteration `e` ran its batch on the page `it` gives and took the best-effort steps it should. */
  predicate Iterated(it: Iteration, e: IterationLog)
  {
    BatchSpec(it.views, e.rounds, e.batch) && SoftSteps(e, it.controls)
  }

  /** Every iteration of `log` is the corresponding iteration of `inputs`. */
  predicate Performed(inputs: seq<Iteration>, log: seq<IterationLog>)
    requires |log| <= |inputs|
  {
    log == [] || (Performed(inputs, log[..|log| - 1]) && Iterated(inputs[|log| - 1], log[|log| - 1]))
  }

  /** The loop went on after each iteration of `log`. */
  predicate Continued(inputs: seq<Iteration>, log: seq<IterationLog>)
    requires |log| <= |inputs|
  {
    log == []
    || (Continued(inputs, log[..|log| - 1]) && Decide(log[|log| - 1].batch, inputs[|log| - 1].controls) == Continue)
  }

  /** The run on `inputs` did the iterations of `log`, ended with `totalUnliked == total`, and stopped for `reason`. */
  predicate RunSpec(inputs: seq<Iteration>, log: seq<IterationLog>, total: nat, reason: StopReason)
  {
    |log| <= |inputs|
    && Performed(inputs, log)
    && (log != [] ==> Continued(inputs, log[..|log| - 1]))
    && total == Gained(inputs, log)
    && reason == (if log != [] && Decide(log[|log| - 1].batch, inputs[|log| - 1].controls).Stop?
                  then Decide(log[|log| - 1].batch, inputs[|log| - 1].controls).reason
                  else InputExhausted)
    && (reason == InputExhausted ==> |log| == |inputs|)
  }

  /** What appending one iteration to a log does to the run's bookkeeping. */
  lemma Append(inputs: seq<Iteration>, log: seq<IterationLog>, e: IterationLog)
    requires |log| < |inputs|
    ensures Performed(inputs, log + [e]) <==> Performed(inputs, log) && Iterated(inputs[|log|], e)
    ensures Continued(inputs, log + [e]) <==>
              Continued(inputs, log) && Decide(e.batch, inputs[|log|].controls) == Continue
    ensures Gained(inputs, log + [e]) == Gained(inputs, log) + Unliked(e.batch, inputs[|log|].controls)
  {
    assert (log + [e])[..|log|] == log;
  }

  /**
   * One pass of the run loop's body: select a batch, then click through the
   * bulk action. Returns what was done, what it adds to `totalUnliked`, and
   * whether the loop goes on.
   */
  method Iterate(it: Iteration) returns (e: IterationLog, gained: nat, outcome: Outcome)
    ensures Iterated(it, e)
    ensures gained == Unliked(e.batch, it.controls)
    ensures outcome == Decide(e.batch, it.controls)
  {
    var c := it.controls;
    var batch, rounds := SelectBatch(it.views);

    if batch.selectedInBatch == 0 {
      return IterationLog(batch, rounds, false, None, false), 0, Stop(NothingSelected);
    }

    var bulkUnlike := FindBulkUnlikeButton(c.bulkCandidates);
    if bulkUnlike.None? {
      return IterationLog(batch, rounds, false, None, false), 0, Stop(NoBulkButton);
    }

    // Neither a missing confirmation button nor a missing toast stops the run.
    var popupUnlike := FindPopupUnlikeButton(c.dialogs);
    var toast := ToastShown(c.toastCandidates);
    e := IterationLog(batch, rounds, true, popupUnlike, toast);
    gained := batch.selectedInBatch;

    if batch.endOfList && batch.selectedInBatch < BATCH_LIMIT {
      return e, gained, Stop(EndOfList);
    }

    var selectButton := FindSelectButton(c.spans);
    if selectButton.None? {
      return e, gained, Stop(NoSelectButton);
    }
    outcome := Continue;
  }

  /** The run loop: iterations until one of them stops the run, or the given iterations run out. */
  method Run(inputs: seq<Iteration>) returns (totalUnliked: nat, reason: StopReason, log: seq<IterationLog>)
    ensures RunSpec(inputs, log, totalUnliked, reason)
  {
    totalUnliked := 0;
    reason := InputExhausted;
    log := [];
    while |log| < |inputs|
      invariant |log| <= |inputs|
      invariant Performed(inputs, log) && Continued(inputs, log)
      invariant totalUnliked == Gained(inputs, log)
      invariant reason == InputExhausted
    {
      var e, gained, outcome := Iterate(inputs[|log|]);
      Append(inputs, log, e);
      totalUnliked := totalUnliked + gained;
      log := log + [e];
      if outcome.Stop? {
        reason := outcome.reason;
        return;
      }
    }
  }

  /** An iteration of a performed log is the iteration of the inputs at the same position. */
  lemma {:induction false} PerformedAt(inputs: seq<Iteration>, log: seq<IterationLog>, i: nat)
    requires |log| <= |inputs| && Performed(inputs, log) && i < |log|
    ensures Iterated(inputs[i], log[i])
  {
    if i < |log| - 1 {
      PerformedAt(inputs, log[..|log| - 1], i);
    }
  }

  /** Each iteration of a continued log decided to go on. */
  lemma {:induction false} ContinuedAt(inputs: seq<Iteration>, log: seq<IterationLog>, i: nat)
    requires |log| <= |inputs| && Continued(inputs, log) && i < |log|
    ensures Decide(log[i].batch, inputs[i].controls) == Continue
  {
    if i < |log| - 1 {
      ContinuedAt(inputs, log[..|log| - 1], i);
    }
  }

  /** The loop goes on only after a full batch, which it has unliked in full. */
  lemma ContinueMeansFullBatch(it: Iteration, e: IterationLog)
    requires Iterated(it, e) && Decide(e.batch, it.controls) == Continue
    ensures e.batch == BatchResult(BATCH_LIMIT, false)
    ensures Unliked(e.batch, it.controls) == BATCH_LIMIT
  {
    BatchOutcome(it.views, e.rounds, e.batch);
  }

  /** Over a log that went on after every iteration, each iteration unliked a full batch. */
  lemma {:induction false} ContinuedGained(inputs: seq<Iteration>, log: seq<IterationLog>)
    requires |log| <= |inputs| && Performed(inputs, log) && Continued(inputs, log)
    ensures Gained(inputs, log) == BATCH_LIMIT * |log|
  {
    if log != [] {
      ContinuedGained(inputs, log[..|log| - 1]);
      ContinueMeansFullBatch(inputs[|log| - 1], log[|log| - 1]);
    }
  }

  /**
   * `totalUnliked` at the end of a run: a full batch for every iteration but
   * the last, plus what the last one unliked, which is at most BATCH_LIMIT.
   */
  lemma RunTotal(inputs: seq<Iteration>, log: seq<IterationLog>, total: nat, reason: StopReason)
    requires RunSpec(inputs, log, total, reason) && log != []
    ensures total == BATCH_LIMIT * (|log| - 1) + Unliked(log[|log| - 1].batch, inputs[|log| - 1].controls)
    ensures total <= BATCH_LIMIT * |log|
  {
    var last := |log| - 1;
    ContinuedGained(inputs, log[..last]);
    BatchOutcome(inputs[last].views, log[last].rounds, log[last].batch);
  }

  /** A first page that never shows a box stops the run after one batch, with nothing unliked and no bulk action. */
  lemma EmptyFirstPage(inputs: seq<Iteration>, log: seq<IterationLog>, total: nat, reason: StopReason)
    requires |inputs| > 0 && forall k :: 0 <= k < |inputs[0].views| ==> inputs[0].views[k] == []
    requires RunSpec(inputs, log, total, reason)
    ensures |log| == 1 && reason == NothingSelected && total == 0
    ensures log[0].batch == BatchResult(0, true) && !log[0].triggered && log[0].confirmation.None? && !log[0].acknowledged
  {
    PerformedAt(inputs, log, 0);
    EmptyPageBatch(inputs[0].views, log[0].rounds, log[0].batch);
    if |log| > 1 {
      ContinuedAt(inputs, log[..|log| - 1], 0);
      assert false;
    }
    assert log[..0] == [];
    assert Gained(inputs, log) == Gained(inputs, []) + Unliked(log[0].batch, inputs[0].controls);
  }

  /** Without an enabled bulk control the run stops after its first batch and unlikes nothing. */
  lemma NoBulkControl(inputs: seq<Iteration>, log: seq<IterationLog>, total: nat, reason: StopReason)
    requires |inputs| > 0
    requires forall j :: 0 <= j < |inputs[0].controls.bulkCandidates| ==> !IsEnabledControl(inputs[0].controls.bulkCandidates[j])
    requires RunSpec(inputs, log, total, reason)
    ensures |log| == 1 && total == 0
    ensures reason == (if log[0].batch.selectedInBatch == 0 then NothingSelected else NoBulkButton)
    ensures !log[0].triggered && log[0].confirmation.None? && !log[0].acknowledged
  {
    PerformedAt(inputs, log, 0);
    if |log| > 1 {
      ContinuedAt(inputs, log[..|log| - 1], 0);
      assert false;
    }
    assert log[..0] == [];
    assert Gained(inputs, log) == Gained(inputs, []) + Unliked(log[0].batch, inputs[0].controls);
  }

  /** Whether the confirmation button or the toast was found changes neither the decision nor the count. */
  lemma SoftFailuresIgnored(b: BatchResult, c: Controls, dialogs: seq<seq<string>>, toasts: seq<string>)
    ensures Decide(b, c.(dialogs := dialogs, toastCandidates := toasts)) == Decide(b, c)
    ensures Unliked(b, c.(dialogs := dialogs, toastCandidates := toasts)) == Unliked(b, c)
  {
  }

  /** The phases of one pass of the run loop, as a state machine. */
  datatype Phase = Selecting | Triggering | Confirming | AwaitingAck | ReEntering | Done | Aborted

  /**
   * One transition, given the batch just selected and whether the bulk control
   * and the `Select` control are on the page.
   */
  function Step(p: Phase, b: BatchResult, bulkFound: bool, selectFound: bool): Phase
  {
    match p
    case Selecting => if b.selectedInBatch > 0 then Triggering else Done
    case Triggering => if bulkFound then Confirming else Aborted
    case Confirming => AwaitingAck
    case AwaitingAck => if b.endOfList && b.selectedInBatch < BATCH_LIMIT then Done else ReEntering
    case ReEntering => if selectFound then Selecting else Aborted
    case Done => Done
    case Aborted => Aborted
  }

  /** The phases visited from `p` until selection starts again or the run is over, in at most `steps` transitions. */
  function Walk(p: Phase, b: BatchResult, bulkFound: bool, selectFound: bool, steps: nat): seq<Phase>
    decreases steps
  {
    if steps == 0 || p == Selecting || p == Done || p == Aborted then [p]
    else [p] + Walk(Step(p, b, bulkFound, selectFound), b, bulkFound, selectFound, steps - 1)
  }

  /** The phases one pass visits once its batch has been selected. */
  function Pass(b: BatchResult, bulkFound: bool, selectFound: bool): seq<Phase>
  {
    [Selecting] + Walk(Step(Selecting, b, bulkFound, selectFound), b, bulkFound, selectFound, 4)
  }

  /** The pass of each outcome, transition by transition. */
  lemma PassCases(b: BatchResult, bulkFound: bool, selectFound: bool)
    ensures Pass(b, bulkFound, selectFound) ==
      if b.selectedInBatch == 0 then [Selecting, Done]
      else if !bulkFound then [Selecting, Triggering, Aborted]
      else if b.endOfList && b.selectedInBatch < BATCH_LIMIT then [Selecting, Triggering, Confirming, AwaitingAck, Done]
      else if !selectFound then [Selecting, Triggering, Confirming, AwaitingAck, ReEntering, Aborted]
      else [Selecting, Triggering, Confirming, AwaitingAck, ReEntering, Selecting]
  {
    var f, g := bulkFound, selectFound;
    if b.selectedInBatch == 0 {
      assert Walk(Done, b, f, g, 4) == [Done];
    } else if !f {
      assert Walk(Aborted, b, f, g, 3) == [Aborted];
      assert Walk(Triggering, b, f, g, 4) == [Triggering, Aborted];
    } else {
      var tail := Walk(AwaitingAck, b, f, g, 2);
      if b.endOfList && b.selectedInBatch < BATCH_LIMIT {
        assert Walk(Done, b, f, g, 1) == [Done];
        assert tail == [AwaitingAck, Done];
      } else if !g {
        assert Walk(Aborted, b, f, g, 0) == [Aborted];
        assert Walk(ReEntering, b, f, g, 1) == [ReEntering, Aborted];
        assert tail == [AwaitingAck, ReEntering, Aborted];
      } else {
        assert Walk(Selecting, b, f, g, 0) == [Selecting];
        assert Walk(ReEntering, b, f, g, 1) == [ReEntering, Selecting];
        assert tail == [AwaitingAck, ReEntering, Selecting];
      }
      assert Walk(Confirming, b, f, g, 3) == [Confirming] + tail;
      assert Walk(Triggering, b, f, g, 4) == [Triggering, Confirming] + tail;
    }
  }

  /**
   * The run loop's decision agrees with the state machine: the loop goes on
   * exactly when the pass returns to selection, stops normally exactly when it
   * ends in Done, aborts exactly when it ends in Aborted, and unlikes exactly
   * when the pass goes through confirmation.
   */
  lemma DecisionFollowsPhases(b: BatchResult, bulkFound: bool, selectFound: bool)
    ensures var p := Pass(b, bulkFound, selectFound);
      |p| >= 2
      && (Decision(b, bulkFound, selectFound) == Continue <==> p[|p| - 1] == Selecting)
      && (Decision(b, bulkFound, selectFound) in {Stop(NothingSelected), Stop(EndOfList)} <==> p[|p| - 1] == Done)
      && (Decision(b, bulkFound, selectFound) in {Stop(NoBulkButton), Stop(NoSelectButton)} <==> p[|p| - 1] == Aborted)
      && (b.selectedInBatch > 0 && bulkFound <==> Confirming in p)
  {
    PassCases(b, bulkFound, selectFound);
  }
}
