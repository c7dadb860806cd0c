/**
 * The element-matching helpers of the script. The page's element lists are
 * given as data: each candidate is reduced to what the helper inspects
 * (its computed style, or its text), and a found element is reported by its
 * position in the list the helper scanned.
 */
module Matchers {
  import opened Wrappers
  import opened Text

  /** The two computed-style properties `findBulkUnlikeButton` inspects. */
  datatype ElementStyle = ElementStyle(pointerEvents: string, cursor: string)

  /** The position of the first element of `s` that satisfies `p`, as a `for ... of` loop with an early return finds it. */
  function FirstIndex<T>(s: seq<T>, p: T -> bool): (r: Option<nat>)
    ensures r.Some? ==> r.value < |s| && p(s[r.value])
    ensures r.Some? ==> forall j :: 0 <= j < r.value ==> !p(s[j])
    ensures r.None? <==> forall j :: 0 <= j < |s| ==> !p(s[j])
  {
    if s == [] then None
    else if p(s[0]) then Some(0)
    else
      match FirstIndex(s[1..], p)
      case None => None
      case Some(k) => Some(k + 1)
  }

  /** The bulk `Unlike` control is enabled when it accepts pointer events and shows a pointer cursor. */
  predicate IsEnabledControl(style: ElementStyle)
  {
    style.pointerEvents != "none" && style.cursor == "pointer"
  }

  /** The confirmation button of the dialog: `Unlike` in any letter case, surrounded by any white space. */
  predicate IsUnlikeLabel(text: string)
  {
    ToLower(Trim(text)) == "unlike"
  }

  /** The acknowledgement toast: its trimmed, lower-cased text starts with `you unliked`. */
  predicate IsUnlikeToast(text: string)
  {
    StartsWith(ToLower(Trim(text)), "you unliked")
  }

  /** The control that re-enters selection mode: a span whose trimmed text is exactly `Select`. */
  predicate IsSelectLabel(text: string)
  {
    Trim(text) == "Select"
  }

  /** `findBulkUnlikeButton`: the first enabled candidate among the bulk `Unlike` buttons, or none. */
  function FindBulkUnlikeButton(candidates: seq<ElementStyle>): (r: Option<nat>)
    ensures r.Some? ==> r.value < |candidates| && IsEnabledControl(candidates[r.value])
    ensures r.Some? ==> forall j :: 0 <= j < r.value ==> !IsEnabledControl(candidates[j])
    ensures r.None? <==> forall j :: 0 <= j < |candidates| ==> !IsEnabledControl(candidates[j])
  {
    FirstIndex(candidates, IsEnabledControl)
  }

  /** No element of `s` satisfies `p`. */
  predicate NoneMatch<T>(s: seq<T>, p: T -> bool)
  {
    forall j :: 0 <= j < |s| ==> !p(s[j])
  }

  /**
   * The (group, element) position of the first element satisfying `p`, scanning
   * the groups in order and each group in order, as two nested `for ... of`
   * loops with an early return find it.
   */
  function FirstNested<T>(groups: seq<seq<T>>, p: T -> bool): (r: Option<(nat, nat)>)
    ensures r.Some? ==> r.value.0 < |groups| && r.value.1 < |groups[r.value.0]| && p(groups[r.value.0][r.value.1])
    ensures r.Some? ==> NoneMatch(groups[r.value.0][..r.value.1], p)
    ensures r.Some? ==> forall e :: 0 <= e < r.value.0 ==> NoneMatch(groups[e], p)
    ensures r.None? <==> forall e :: 0 <= e < |groups| ==> NoneMatch(groups[e], p)
  {
    if groups == [] then None
    else
      match FirstIndex(groups[0], p)
      case Some(j) => Some((0, j))
      case None =>
        match FirstNested(groups[1..], p)
        case None => None
        case Some(pos) => Some((pos.0 + 1, pos.1))
  }

  /**
   * `findPopupUnlikeButton`: scanning the open dialogs in order and the buttons of
   * each in order, the (dialog, button) position of the first confirmation button.
   */
  function FindPopupUnlikeButton(dialogs: seq<seq<string>>): (r: Option<(nat, nat)>)
    ensures r.Some? ==> r.value.0 < |dialogs| && r.value.1 < |dialogs[r.value.0]|
                        && IsUnlikeLabel(dialogs[r.value.0][r.value.1])
    ensures r.Some? ==> NoneMatch(dialogs[r.value.0][..r.value.1], IsUnlikeLabel)
    ensures r.Some? ==> forall e :: 0 <= e < r.value.0 ==> NoneMatch(dialogs[e], IsUnlikeLabel)
    ensures r.None? <==> forall e :: 0 <= e < |dialogs| ==> NoneMatch(dialogs[e], IsUnlikeLabel)
  {
    FirstNested(dialogs, IsUnlikeLabel)
  }

  /** The toast test of `waitForUnlikeToast`, on one poll of the candidate elements: whether any shows the toast text. */
  function ToastShown(candidates: seq<string>): (found: bool)
    ensures found <==> exists j :: 0 <= j < |candidates| && IsUnlikeToast(candidates[j])
  {
    FirstIndex(candidates, IsUnlikeToast).Some?
  }

  /** `findSelectButton`: the first span whose trimmed text is `Select`, or none. */
  function FindSelectButton(spans: seq<string>): (r: Option<nat>)
    ensures r.Some? ==> r.value < |spans| && IsSelectLabel(spans[r.value])
    ensures r.Some? ==> forall j :: 0 <= j < r.value ==> !IsSelectLabel(spans[j])
    ensures r.None? <==> forall j :: 0 <= j < |spans| ==> !IsSelectLabel(spans[j])
  {
    FirstIndex(spans, IsSelectLabel)
  }

  /** Any letter-case variant of `unlike`, with white space on either side, is accepted by the popup matcher. */
  lemma UnlikeLabelAccepted(a: string, w: string, b: string)
    requires AllWhiteSpace(a) && AllWhiteSpace(b)
    requires ToLower(w) == "unlike"
    ensures IsUnlikeLabel(a + w + b)
  {
    assert LowerChar(w[0]) == 'u' && LowerChar(w[5]) == 'e';
    TrimPadded(a, w, b);
  }

  /** Conversely, an accepted label is a letter-case variant of `unlike` with white space on either side. */
  lemma UnlikeLabelShape(text: string) returns (i: nat)
    requires IsUnlikeLabel(text)
    ensures i + 6 <= |text| && ToLower(text[i..i + 6]) == "unlike"
    ensures forall k :: 0 <= k < i ==> IsWhiteSpace(text[k])
    ensures forall k :: i + 6 <= k < |text| ==> IsWhiteSpace(text[k])
  {
    i := TrimSplits(text);
  }

  /** The `Select` matcher ignores any white space around the label ... */
  lemma SelectLabelPadded(a: string, b: string)
    requires AllWhiteSpace(a) && AllWhiteSpace(b)
    ensures IsSelectLabel(a + "Select" + b)
  {
    TrimPadded(a, "Select", b);
  }

  /**
   * ... and accepts nothing else: unlike the other two text matchers, it
   * keeps letter case, so every accepted text holds `Select` exactly.
   */
  lemma SelectLabelShape(text: string) returns (i: nat)
    requires IsSelectLabel(text)
    ensures i + 6 <= |text| && text[i..i + 6] == "Select"
    ensures forall k :: 0 <= k < i ==> IsWhiteSpace(text[k])
    ensures forall k :: i + 6 <= k < |text| ==> IsWhiteSpace(text[k])
  {
    i := TrimSplits(text);
  }

  /** Any text that starts with `you unliked` in some letter case, padded with white space, is taken for the toast. */
  lemma UnlikeToastAccepted(a: string, m: string, b: string)
    requires AllWhiteSpace(a) && AllWhiteSpace(b) && Trimmed(m)
    requires StartsWith(ToLower(m), "you unliked")
    ensures IsUnlikeToast(a + m + b)
  {
    TrimPadded(a, m, b);
  }
}
