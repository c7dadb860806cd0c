/**
 * `selectBatch`: rounds of scanning the rendered checkboxes, clicking up to
 * BATCH_LIMIT new ones per batch, until the batch is full or the list has
 * stopped changing for STABLE_LIMIT rounds.
 *
 * The page is an input. Round k sees `views[k]`; once the given views are used
 * up, the page no longer loads anything and each round sees the boxes the
 * previous round left, with its clicks applied.
 */
module Batch {
  import opened Boxes

  const BATCH_LIMIT := 100
  const STABLE_LIMIT := 3

  datatype BatchResult = BatchResult(selectedInBatch: nat, endOfList: bool)

  /** What one round saw and how many boxes it newly selected. */
  datatype RoundLog = RoundLog(seen: seq<Box>, selected: nat)

  /** How many more boxes a batch that has selected `total` may still select. */
  function Room(total: nat): nat
  {
    if total >= BATCH_LIMIT then 0 else BATCH_LIMIT - total
  }

  /**
   * One pass over the boxes of a round: skip checked boxes and boxes without a
   * tile, click the others, and stop once the batch holds BATCH_LIMIT.
   */
  method ScanRound(boxes: seq<Box>, totalBefore: nat) returns (selectedThisRound: nat, after: seq<Box>)
    ensures selectedThisRound == Min(CountSelectable(boxes), Room(totalBefore))
    ensures after == Mark(boxes, selectedThisRound)
  {
    var totalNewlySelected := totalBefore;
    selectedThisRound := 0;
    after := [];
    var i := 0;
    while i < |boxes|
      invariant 0 <= i <= |boxes|
      invariant totalNewlySelected == totalBefore + selectedThisRound
      invariant selectedThisRound == Min(CountSelectable(boxes[..i]), Room(totalBefore))
      invariant after == Mark(boxes[..i], Room(totalBefore))
    {
      if totalNewlySelected >= BATCH_LIMIT {
        break;
      }
      var box := boxes[i];
      assert boxes[..i + 1][..i] == boxes[..i];
      if Selectable(box) {
        after := after + [Check(box)];
        totalNewlySelected := totalNewlySelected + 1;
        selectedThisRound := selectedThisRound + 1;
      } else {
        after := after + [box];
      }
      i := i + 1;
    }
    if i < |boxes| {
      // the loop stopped at the batch limit: the remaining boxes are not touched
      MarkSaturated(boxes, Room(totalBefore), i);
      after := after + boxes[i..];
      CountMonotone(boxes, i, |boxes|);
    }
    assert boxes[..|boxes|] == boxes;
    MarkQuota(boxes, Room(totalBefore));
  }

  function Last(log: seq<RoundLog>): RoundLog
    requires log != []
  {
    log[|log| - 1]
  }

  function Prefix(log: seq<RoundLog>): seq<RoundLog>
    requires log != []
  {
    log[..|log| - 1]
  }

  /** `totalNewlySelected` after the rounds of `log`. */
  function Selected(log: seq<RoundLog>): nat
  {
    if log == [] then 0 else Selected(Prefix(log)) + Last(log).selected
  }

  /** `lastTotalBoxes` after the rounds of `log`: the box count of the latest round, 0 before the first. */
  function LastTotalBoxes(log: seq<RoundLog>): nat
  {
    if log == [] then 0 else |Last(log).seen|
  }

  /** The stability rule: one more stable round when nothing changed and nothing was selected, else back to 0. */
  function NextStable(lastTotalBoxes: nat, stableRounds: nat, boxCount: nat, selectedThisRound: nat): nat
  {
    if boxCount == lastTotalBoxes && selectedThisRound == 0 then stableRounds + 1 else 0
  }

  /** `stableRounds` after the rounds of `log`. */
  function StableRounds(log: seq<RoundLog>): nat
  {
    if log == [] then 0
    else NextStable(LastTotalBoxes(Prefix(log)), StableRounds(Prefix(log)), |Last(log).seen|, Last(log).selected)
  }

  /** The boxes the latest round of `log` left behind, its clicks applied. */
  function AfterClicks(log: seq<RoundLog>): seq<Box>
  {
    if log == [] then [] else Mark(Last(log).seen, Last(log).selected)
  }

  /** The boxes the round after those of `log` sees. */
  function Observed(views: seq<seq<Box>>, log: seq<RoundLog>): seq<Box>
  {
    if |log| < |views| then views[|log|] else AfterClicks(log)
  }

  /** Every round of `log` saw the page as `views` says and selected what the scan of that page selects. */
  predicate Rounds(views: seq<seq<Box>>, log: seq<RoundLog>)
  {
    log == [] ||
    (Rounds(views, Prefix(log))
     && Last(log).seen == Observed(views, Prefix(log))
     && Last(log).selected == Min(CountSelectable(Last(log).seen), Room(Selected(Prefix(log)))))
  }

  /** The loop returns after the rounds of `log`: the batch is full, or the list has been stable long enough. */
  predicate Stopped(log: seq<RoundLog>)
  {
    Selected(log) >= BATCH_LIMIT || StableRounds(log) >= STABLE_LIMIT
  }

  /** No round of `log` made the loop return. */
  predicate Running(log: seq<RoundLog>)
  {
    log == [] || (!Stopped(log) && Running(Prefix(log)))
  }

  /** `res` is what `selectBatch` returns on the page `views` after the rounds of `log`. */
  predicate BatchSpec(views: seq<seq<Box>>, log: seq<RoundLog>, res: BatchResult)
  {
    log != [] && Rounds(views, log) && Running(Prefix(log)) && Stopped(log)
    && res == if Selected(log) >= BATCH_LIMIT then BatchResult(Selected(log), false)
              else BatchResult(Selected(log), true)
  }

  /** `selectBatch`: the batch result, and the log of the rounds it took. */
  method SelectBatch(views: seq<seq<Box>>) returns (res: BatchResult, log: seq<RoundLog>)
    ensures BatchSpec(views, log, res)
    ensures res.selectedInBatch <= BATCH_LIMIT
  {
    var totalNewlySelected := 0;
    var lastTotalBoxes := 0;
    var stableRounds := 0;
    var page: seq<Box> := [];
    log := [];
    while true
      invariant Rounds(views, log) && Running(log)
      invariant totalNewlySelected == Selected(log) && totalNewlySelected < BATCH_LIMIT
      invariant lastTotalBoxes == LastTotalBoxes(log) == |page|
      invariant stableRounds == StableRounds(log) && stableRounds < STABLE_LIMIT
      invariant page == AfterClicks(log)
      decreases if |log| < |views| then |views| - |log| else 0,
                BATCH_LIMIT - totalNewlySelected, STABLE_LIMIT - stableRounds
    {
      var boxes := if |log| < |views| then views[|log|] else page;
      var selectedThisRound, after := ScanRound(boxes, totalNewlySelected);
      var previous := log;
      log := log + [RoundLog(boxes, selectedThisRound)];
      assert Prefix(log) == previous;
      totalNewlySelected := totalNewlySelected + selectedThisRound;
      page := after;

      if totalNewlySelected >= BATCH_LIMIT {
        return BatchResult(totalNewlySelected, false), log;
      }

      if |boxes| == lastTotalBoxes && selectedThisRound == 0 {
        stableRounds := stableRounds + 1;
      } else {
        stableRounds := 0;
      }
      lastTotalBoxes := |boxes|;

      if stableRounds >= STABLE_LIMIT {
        return BatchResult(totalNewlySelected, true), log;
      }
    }
  }

  /** Whatever the page shows, the rounds of a batch never select more than BATCH_LIMIT boxes in all. */
  lemma {:induction false} RoundsWithinCap(views: seq<seq<Box>>, log: seq<RoundLog>)
    requires Rounds(views, log)
    ensures Selected(log) <= BATCH_LIMIT
  {
    if log != [] {
      RoundsWithinCap(views, Prefix(log));
    }
  }

  /**
   * A batch ends full, with `endOfList` false, or below the cap after
   * STABLE_LIMIT stable rounds, with `endOfList` true.
   */
  lemma BatchOutcome(views: seq<seq<Box>>, log: seq<RoundLog>, res: BatchResult)
    requires BatchSpec(views, log, res)
    ensures res.selectedInBatch == Selected(log) <= BATCH_LIMIT
    ensures !res.endOfList <==> res.selectedInBatch == BATCH_LIMIT
    ensures res.endOfList ==> StableRounds(log) >= STABLE_LIMIT && res.selectedInBatch < BATCH_LIMIT
  {
    RoundsWithinCap(views, log);
  }

  /** The latest round of `log` selected nothing and saw as many boxes as the round before it. */
  predicate Unproductive(log: seq<RoundLog>)
    requires log != []
  {
    Last(log).selected == 0 && |Last(log).seen| == LastTotalBoxes(Prefix(log))
  }

  /** A stability count of `n` means the last `n` rounds were all unproductive. */
  lemma {:induction false} StableMeansUnproductive(log: seq<RoundLog>, n: nat)
    requires n <= StableRounds(log)
    ensures n <= |log|
    ensures forall k :: |log| - n < k <= |log| ==> Unproductive(log[..k])
  {
    if n > 0 {
      StableMeansUnproductive(Prefix(log), n - 1);
      forall k | |log| - n < k <= |log|
        ensures Unproductive(log[..k])
      {
        if k < |log| {
          assert Prefix(log)[..k] == log[..k];
        } else {
          assert log[..k] == log;
        }
      }
    }
  }

  /** Conversely, `n` unproductive rounds in a row give a stability count of at least `n`. */
  lemma {:induction false} UnproductiveMeansStable(log: seq<RoundLog>, n: nat)
    requires n <= |log|
    requires forall k :: |log| - n < k <= |log| ==> Unproductive(log[..k])
    ensures n <= StableRounds(log)
  {
    if n > 0 {
      assert log[..|log|] == log;
      forall k | |Prefix(log)| - (n - 1) < k <= |Prefix(log)|
        ensures Unproductive(Prefix(log)[..k])
      {
        assert Prefix(log)[..k] == log[..k];
      }
      UnproductiveMeansStable(Prefix(log), n - 1);
    }
  }

  /** On a page that never shows a box, every round is stable and nothing is selected. */
  lemma {:induction false} EmptyRounds(views: seq<seq<Box>>, log: seq<RoundLog>)
    requires forall i :: 0 <= i < |views| ==> views[i] == []
    requires Rounds(views, log)
    ensures Selected(log) == 0 && StableRounds(log) == |log|
    ensures LastTotalBoxes(log) == 0 && AfterClicks(log) == []
  {
    if log != [] {
      EmptyRounds(views, Prefix(log));
    }
  }

  /** A page that never shows a box ends the batch with nothing selected and `endOfList` after exactly STABLE_LIMIT rounds. */
  lemma EmptyPageBatch(views: seq<seq<Box>>, log: seq<RoundLog>, res: BatchResult)
    requires forall i :: 0 <= i < |views| ==> views[i] == []
    requires BatchSpec(views, log, res)
    ensures res == BatchResult(0, true) && |log| == STABLE_LIMIT
  {
    EmptyRounds(views, log);
    EmptyRounds(views, Prefix(log));
  }
}
