/**
 * The selection checkboxes rendered on the page, as `selectBatch` sees them,
 * and what clicking the post tiles of a round does to them.
 */
module Boxes {

  /**
   * One `bulk_action_checkbox` element: `unchecked` when its outline icon is
   * present, `hasTile` when a post tile is reachable from it.
   */
  datatype Box = Box(unchecked: bool, hasTile: bool)

  /** A box that `selectBatch` clicks: still unchecked and with a post tile. */
  predicate Selectable(b: Box)
  {
    b.unchecked && b.hasTile
  }

  /** The box after its tile has been clicked: checked, same tile. */
  function Check(b: Box): (r: Box)
    ensures !Selectable(r) && r.hasTile == b.hasTile
  {
    b.(unchecked := false)
  }

  function Min(a: nat, b: nat): nat
  {
    if a <= b then a else b
  }

  /** The number of selectable boxes. */
  function CountSelectable(s: seq<Box>): (n: nat)
    ensures n <= |s|
  {
    if s == [] then 0
    else CountSelectable(s[..|s| - 1]) + (if Selectable(s[|s| - 1]) then 1 else 0)
  }

  /**
   * The boxes after a round that may click at most `quota` tiles: the first
   * `quota` selectable boxes, in page order, become checked.
   */
  function Mark(s: seq<Box>, quota: nat): (r: seq<Box>)
    ensures |r| == |s|
  {
    if s == [] then []
    else
      var prefix := s[..|s| - 1];
      var b := s[|s| - 1];
      Mark(prefix, quota) + [if Selectable(b) && CountSelectable(prefix) < quota then Check(b) else b]
  }

  /** Box `i` is clicked exactly when it is selectable and fewer than `quota` selectable boxes precede it. */
  lemma {:induction false} MarkAt(s: seq<Box>, quota: nat, i: nat)
    requires i < |s|
    ensures Mark(s, quota)[i] ==
      if Selectable(s[i]) && CountSelectable(s[..i]) < quota then Check(s[i]) else s[i]
  {
    var prefix := s[..|s| - 1];
    if i < |s| - 1 {
      assert prefix[..i] == s[..i];
      MarkAt(prefix, quota, i);
    } else {
      assert s[..i] == prefix;
    }
  }

  /** Once `quota` selectable boxes have been seen, the rest of the page is left as it is. */
  lemma {:induction false} MarkSaturated(s: seq<Box>, quota: nat, i: nat)
    requires i <= |s| && quota <= CountSelectable(s[..i])
    ensures Mark(s, quota) == Mark(s[..i], quota) + s[i..]
  {
    if i < |s| {
      var prefix := s[..|s| - 1];
      assert prefix[..i] == s[..i];
      MarkSaturated(prefix, quota, i);
      CountMonotone(s, i, |s| - 1);
      assert s[..|s| - 1] == prefix;
      assert s[i..] == prefix[i..] + [s[|s| - 1]];
    } else {
      assert s[..i] == s;
    }
  }

  /** Counting selectable boxes over a longer prefix never gives fewer. */
  lemma {:induction false} CountMonotone(s: seq<Box>, i: nat, j: nat)
    requires i <= j <= |s|
    ensures CountSelectable(s[..i]) <= CountSelectable(s[..j])
  {
    if i < j {
      assert s[..j][..j - 1] == s[..j - 1];
      CountMonotone(s, i, j - 1);
    }
  }

  /** A quota beyond the number of selectable boxes clicks no more than a quota of exactly that number. */
  lemma {:induction false} MarkQuota(s: seq<Box>, quota: nat)
    ensures Mark(s, quota) == Mark(s, Min(CountSelectable(s), quota))
  {
    if s != [] {
      var prefix := s[..|s| - 1];
      MarkQuota(prefix, quota);
      MarkQuota(prefix, Min(CountSelectable(s), quota));
    }
  }

  /**
   * No box is counted twice: after a round with quota `quota`, exactly that many
   * fewer boxes (or all of them) are selectable.
   */
  lemma {:induction false} MarkCount(s: seq<Box>, quota: nat)
    ensures CountSelectable(Mark(s, quota)) == CountSelectable(s) - Min(CountSelectable(s), quota)
  {
    if s != [] {
      var prefix := s[..|s| - 1];
      MarkCount(prefix, quota);
      assert Mark(s, quota)[..|s| - 1] == Mark(prefix, quota);
    }
  }
}
