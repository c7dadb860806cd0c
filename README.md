# Bulk un-liker, modelled in Dafny

`script.js` is a browser-console script for Instagram's "Your activity → Likes" page.
It runs in a loop. Each batch ticks up to 100 unchecked posts (Instagram's
selection cap) and keeps scrolling to load more rows, until either the cap is
reached or three scans in a row find nothing new. It then presses the bulk
"Unlike" control, confirms the pop-up, waits for the "You unliked …" toast,
and re-enters "Select" mode for the next batch. It stops when a batch selects
nothing, when a needed control is missing, or when the list has ended.

This project models three parts of that script: the batch selector
`selectBatch`, the outer run loop, and the four element matchers. It proves
what each one guarantees.

- `Text` (text.dfy) defines ECMAScript `String.prototype.trim` over the
  ECMAScript white-space and line-terminator set. It also defines
  `toLowerCase` (ASCII letters only) and `startsWith`.
- `Matchers` (matchers.dfy) holds the four DOM searches. Each is a
  first-match search over a sequence of element descriptions:
  - the computed style of the bulk-unlike candidates;
  - the button texts of each dialog;
  - the toast texts;
  - the span texts.
- `Boxes` (boxes.dfy) represents a checkbox as `Box(unchecked, hasTile)`.
  `unchecked` means the outline icon is present. `hasTile` means an enclosing
  element holds a post tile. `Mark` is what one scan does to the page: it
  ticks selectable boxes in document order while the quota lasts.
- `Batch` (batch.dfy) models `selectBatch`. The host page is a sequence of
  views: round *k* of the batch sees view *k*. Once the views run out, the
  page is static: each further round sees the previous round's boxes with
  that round's ticks applied. `ScanRound` is the inner `for` loop.
  `SelectBatch` is the `while (true)` loop. Each returns a round log, and the
  log is specified by `BatchSpec`.
- `RunLoop` (run.dfy) models the outer `while (true)` loop.
  - `Iterate` is one pass of the loop: select a batch, then find the bulk
    control, the pop-up button, the toast and the Select control.
  - `Run` is the whole loop. It is specified by `RunSpec` over the sequence
    of iteration logs.
  - `Step`/`Pass` restate one pass as a phase machine
    (Selecting → Triggering → Confirming → AwaitingAck → ReEntering).

## Model

| member | source | states |
|---|---|---|
| Text.IsWhiteSpace | script.js:29 | the characters `trim()` strips: tab, line feed, vertical tab, form feed, carriage return, space, no-break space, U+1680, U+2000–U+200A, U+2028, U+2029, U+202F, U+205F, U+3000 and U+FEFF |
| Text.DropLeading | script.js:29 | the result is a suffix of the input; everything dropped is white space; the result does not start with white space |
| Text.DropTrailing | script.js:40 | the result is a prefix of the input; everything dropped is white space; the result does not end with white space |
| Text.Trim | script.js:29 | the trimmed text has no white space at either end and is no longer than the input |
| Text.TrimPadded | script.js:29 | trimming strips any white-space padding from both sides of an already trimmed text and leaves that text intact |
| Text.TrimSplits | script.js:40 | every text is white space, then its trim, then white space; so trim keeps a contiguous slice |
| Text.TrimIdempotent | script.js:29 | trimming twice gives the same result as trimming once |
| Text.ToLower | script.js:29 | `toLowerCase()`: the result has the input's length and maps each character on its own (A–Z to a–z, all others unchanged) |
| Text.StartsWith | script.js:57 | `startsWith(p)`: the text is at least as long as `p` and its first characters, as many as `p` has, are `p` |
| Matchers.IsEnabledControl | script.js:17 | a bulk-unlike candidate is usable when its computed `pointer-events` is not `none` and its `cursor` is `pointer` |
| Matchers.IsUnlikeLabel | script.js:29-30 | a pop-up button matches when its text, trimmed and lower-cased, is exactly `unlike` |
| Matchers.IsUnlikeToast | script.js:57 | a toast candidate matches when its text, trimmed and lower-cased, starts with `you unliked` |
| Matchers.IsSelectLabel | script.js:40 | a span matches when its trimmed text is exactly `Select`, letter case included |
| Matchers.FirstIndex | script.js:15-21 | the index found satisfies the test, no earlier element does, and there is no result exactly when no element satisfies the test |
| Matchers.FindBulkUnlikeButton | script.js:11-22 | yields the first candidate whose pointer-events is not `none` and whose cursor is `pointer`; yields nothing exactly when no candidate qualifies |
| Matchers.FirstNested | script.js:26-33 | the (group, item) found satisfies the test; no earlier item of that group and no earlier group has one; there is no result exactly when no group has one |
| Matchers.FindPopupUnlikeButton | script.js:24-34 | yields the first button, over dialogs in document order and buttons within them, whose trimmed lower-cased text is `unlike`; yields nothing exactly when no dialog has such a button |
| Matchers.ToastShown | script.js:53-58 | a toast is reported exactly when some candidate's trimmed lower-cased text starts with `you unliked` |
| Matchers.FindSelectButton | script.js:37-47 | yields the first span whose trimmed text is exactly `Select`; yields nothing exactly when no span qualifies |
| Matchers.UnlikeLabelAccepted | script.js:29-30 | a button label of any letter case of `unlike`, padded with any white space, is accepted |
| Matchers.UnlikeLabelShape | script.js:29-30 | conversely, every accepted label is white space, then six characters whose lower case is `unlike`, then white space |
| Matchers.SelectLabelPadded | script.js:40 | `Select` padded on either side with any white space is accepted |
| Matchers.SelectLabelShape | script.js:40 | conversely, every accepted text is white space, then exactly `Select` in that letter case, then white space; so any other casing, such as `select`, is rejected |
| Matchers.UnlikeToastAccepted | script.js:56-57 | a white-space-padded text whose lower case starts with `you unliked` counts as the toast |
| Boxes.Selectable | script.js:95-114 | a box is clicked only when its outline icon is present (still unchecked) and a post tile is found above it |
| Boxes.Check | script.js:116-117 | ticking a box makes it no longer selectable and keeps its tile |
| Boxes.CountSelectable | script.js:95-114 | the number of selectable boxes never exceeds the number of boxes |
| Boxes.Mark | script.js:89-123 | the page after one scan with a quota: the first `quota` selectable boxes in document order become checked, every other box is kept, and the page keeps its length |
| Boxes.MarkAt | script.js:89-120 | after a scan, a box is ticked exactly when it was selectable and fewer than the quota selectable boxes precede it; all other boxes are unchanged |
| Boxes.MarkSaturated | script.js:90-93 | once the quota has been used up, the rest of the page is left untouched, as by the loop's `break` |
| Boxes.MarkQuota | script.js:89-120 | a quota larger than the number of selectable boxes acts like exactly that many |
| Boxes.MarkCount | script.js:95-120 | a scan reduces the number of selectable boxes by exactly the number it ticked |
| Boxes.CountMonotone | script.js:95-114 | a longer prefix of the page never holds fewer selectable boxes |
| Batch.ScanRound | script.js:87-123 | one scan ticks min(selectable boxes, room left under the cap of 100) boxes, and the page afterwards is the page with exactly those ticks applied |
| Batch.SelectBatch | script.js:71-151 | the returned log is a valid batch: every round saw its view and ticked what a scan ticks; no round before the last had reached the cap or three stable rounds; the last one had; the result reports the total, with `endOfList` false exactly when the cap was reached; the total is at most 100 |
| Batch.RoundsWithinCap | script.js:89-93 | across any sequence of rounds the batch never selects more than 100 posts |
| Batch.BatchOutcome | script.js:125-145 | `selectedInBatch` is the number of ticks in the batch (at most 100); `endOfList` is false exactly when the cap was hit; when it is true, three stable rounds were seen below the cap |
| Batch.NextStable | script.js:129-136 | the stability counter goes up by one when a round saw as many boxes as the last one and selected nothing, and goes back to 0 otherwise |
| Batch.StableMeansUnproductive | script.js:129-138 | a stable-round count of *n* means each of the last *n* rounds saw the same number of boxes as the round before and ticked nothing |
| Batch.UnproductiveMeansStable | script.js:129-138 | conversely, *n* such unproductive rounds at the end give a stable count of at least *n* |
| Batch.EmptyRounds | script.js:72-74 | on a page with no boxes, every round is stable and nothing is selected |
| Batch.EmptyPageBatch | script.js:129-145 | on a page with no boxes, the batch ends after exactly three rounds with `{selectedInBatch: 0, endOfList: true}` |
| RunLoop.Decision | script.js:158-208 | the branch chain after a batch, in the source's order: nothing selected, then no bulk control, then end of list below the cap, then no Select control; otherwise the loop continues |
| RunLoop.Decide | script.js:158-208 | the branch chain decided on what the page shows: the bulk control and the Select control count as present when their matchers find one |
| RunLoop.Triggered | script.js:158-172 | the bulk control is clicked exactly when the batch selected something and an enabled bulk control exists |
| RunLoop.Unliked | script.js:188 | an iteration adds its whole batch to `totalUnliked` when it clicked the bulk control, and nothing otherwise |
| RunLoop.Iterate | script.js:156-209 | one iteration yields a valid batch; it records whether it clicked the bulk control, and the pop-up and toast are looked up only after that click; it gains the batch size exactly when the batch is non-empty and the bulk control exists; it continues or stops for the reason the branch chain gives |
| RunLoop.Run | script.js:153-212 | the log holds one valid iteration per pass; every pass but the last continued; the total is the sum gained; the stop reason is that of the last pass |
| RunLoop.Append | script.js:155-210 | extending a run by one iteration extends its validity, its continuation chain and its total in the expected way |
| RunLoop.PerformedAt | script.js:155-210 | every logged iteration is valid for its own page and controls |
| RunLoop.ContinuedAt | script.js:192-209 | every iteration before the last one continued the loop |
| RunLoop.ContinueMeansFullBatch | script.js:192-209 | the loop goes on only after a full batch of 100 posts that was not the end of the list, so each continuing pass unlikes 100 |
| RunLoop.ContinuedGained | script.js:188 | a run in which every pass continued has unliked exactly 100 per pass |
| RunLoop.RunTotal | script.js:188-195 | the final total is 100 per completed pass plus what the last pass gained, and so is at most 100 times the number of passes |
| RunLoop.EmptyFirstPage | script.js:158-161 | on a page with no boxes, the run stops after one pass with nothing selected, nothing unliked, no bulk click, and no pop-up or toast looked at |
| RunLoop.NoBulkControl | script.js:165-169 | when no bulk control is ever enabled, the run stops after one pass without a bulk click, and nothing is counted as unliked |
| RunLoop.SoftFailuresIgnored | script.js:177-186 | whether the pop-up button or the toast is found has no effect on the decision or on the count |
| RunLoop.Step | script.js:155-208 | one transition of the pass: Selecting → Triggering if something was selected (else Done); Triggering → Confirming if the bulk control exists (else Aborted); Confirming → AwaitingAck; AwaitingAck → Done at the end of the list below the cap (else ReEntering); ReEntering → Selecting if the Select control exists (else Aborted) |
| RunLoop.PassCases | script.js:155-208 | a pass goes through the phase sequence its branch chain selects |
| RunLoop.DecisionFollowsPhases | script.js:155-208 | a pass ends back in Selecting exactly when the loop continues; in Done exactly when it stopped because nothing was selected or the list ended; in Aborted exactly when a control was missing; it reaches Confirming exactly when a batch was selected and the bulk control exists |

## Left out

- DOM queries, `closest` and the `parentElement` walk are left out. The page is given as plain values instead: boxes with `unchecked`/`hasTile` flags, style pairs, and text lists.
- `getComputedStyle` is not modelled as a call; only the two style properties it reports are kept.
- `innerText` and `textContent` both become plain strings.
- `scrollIntoView`, `click` and `window.scrollTo` have no effect in the model beyond what the next view shows.
- `sleep`, the delay constants and `console.log` output are not modelled: they do not affect control flow.
- ToastShown: only one look at the toast candidates is modelled, not the 60-second polling with `Date.now`. Its result never affects the loop, as RunLoop.SoftFailuresIgnored shows.
- Text.ToLower maps only the ASCII letters A–Z. JavaScript's full Unicode case mapping is not modelled, so labels that depend on non-ASCII case folding are outside the model.
- Host behaviour cannot be seen from the script. The views are inputs. After the given views run out, the page is assumed frozen apart from the script's own ticks. That assumption is what makes `SelectBatch` terminate. On a page that keeps changing forever, the script itself can loop without end.
- The outer loop gets a finite sequence of iterations, one per batch. If they run out first, `Run` stops with the model-only reason `InputExhausted`. The source would keep going.
- Matchers.FindSelectButton: returns the position of the matching span, not the `closest('div[style*="cursor: pointer"]')` ancestor or the parent that the source clicks.
- Multi-batch scenarios, such as 250 liked posts leading to batches of 100, 100 and 50, are not derived concretely. They would need a model of how Instagram removes unliked rows between batches. RunLoop.RunTotal and RunLoop.ContinueMeansFullBatch give the general arithmetic.
- The variant of the script that reloads the page between batches is not part of this model.
