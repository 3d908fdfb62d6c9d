/**
 * Overlay selection: which of a panel's label slots contribute a badge, and
 * what the preview of each panel is asked to paint.
 */
module Labels {
  import opened Text

  /** Each image side has this many label slots (L1..L3, R1..R3). */
  const SlotCount := 3

  /** One label row: its check box and the text of its line edit. */
  datatype LabelSlot = LabelSlot(checked: bool, text: string)

  /** The left (first) or right (second) panel. */
  datatype Side = Left | Right

  /** A slot contributes when it is checked and its stripped text is not empty. */
  predicate Active(slot: LabelSlot) {
    slot.checked && Strip(slot.text) != ""
  }

  /** The stripped texts of the active slots, in slot order. */
  function ActiveLabels(slots: seq<LabelSlot>): (r: seq<string>)
    ensures |r| <= |slots|
    ensures |slots| == SlotCount ==> |r| <= SlotCount
    ensures forall k :: 0 <= k < |r| ==> IsLabelText(r[k])
  {
    if slots == [] then []
    else
      var rest := ActiveLabels(slots[1..]);
      if Active(slots[0]) then
        StrippedIsLabelText(slots[0].text);
        LabelTextsPrepend(Strip(slots[0].text), rest);
        [Strip(slots[0].text)] + rest
      else rest
  }

  /** A non-empty stripped text is a label text. */
  lemma StrippedIsLabelText(t: string)
    requires Strip(t) != ""
    ensures IsLabelText(Strip(t))
  {
    StripIdempotent(t);
  }

  /** Prepending a label text to label texts gives label texts. */
  lemma LabelTextsPrepend(h: string, rest: seq<string>)
    requires IsLabelText(h)
    requires forall k :: 0 <= k < |rest| ==> IsLabelText(rest[k])
    ensures forall k :: 0 <= k < |[h] + rest| ==> IsLabelText(([h] + rest)[k])
  {
    forall k | 0 <= k < |[h] + rest| ensures IsLabelText(([h] + rest)[k]) {
      if k > 0 {
        assert ([h] + rest)[k] == rest[k - 1];
      }
    }
  }

  /** A text that can appear as a label: not empty, and already stripped. */
  predicate IsLabelText(t: string) {
    t != "" && Strip(t) == t
  }

  /** The positions, from `from` on, of the active slots, in increasing order. */
  ghost function ActivePositions(slots: seq<LabelSlot>, from: nat): (pos: seq<nat>)
    ensures forall k :: 0 <= k < |pos| ==> from <= pos[k] < |slots|
    decreases |slots| - from
  {
    if from >= |slots| then []
    else (if Active(slots[from]) then [from] else []) + ActivePositions(slots, from + 1)
  }

  /** The positions from `from` on increase strictly. */
  lemma {:induction false} ActivePositionsIncrease(slots: seq<LabelSlot>, from: nat)
    requires from <= |slots|
    ensures forall k, l :: 0 <= k < l < |ActivePositions(slots, from)| ==>
      ActivePositions(slots, from)[k] < ActivePositions(slots, from)[l]
    decreases |slots| - from
  {
    if from < |slots| {
      ActivePositionsIncrease(slots, from + 1);
      var pos := ActivePositions(slots, from);
      var rest := ActivePositions(slots, from + 1);
      if Active(slots[from]) {
        assert pos == [from] + rest;
        forall k, l | 0 <= k < l < |pos|
          ensures pos[k] < pos[l]
        {
          assert pos[l] == rest[l - 1];
          if k > 0 {
            assert pos[k] == rest[k - 1];
          } else {
            assert from + 1 <= rest[l - 1];
          }
        }
      } else {
        assert pos == rest;
      }
    }
  }

  /** A slot from `from` on is among the positions if and only if it is active. */
  lemma {:induction false} ActivePositionsMembers(slots: seq<LabelSlot>, from: nat)
    requires from <= |slots|
    ensures forall i :: from <= i < |slots| ==> (Active(slots[i]) <==> i in ActivePositions(slots, from))
    decreases |slots| - from
  {
    if from < |slots| {
      ActivePositionsMembers(slots, from + 1);
      var pos := ActivePositions(slots, from);
      var rest := ActivePositions(slots, from + 1);
      assert from !in rest;
      assert pos == (if Active(slots[from]) then [from] else []) + rest;
      forall i | from < i < |slots|
        ensures i in pos <==> i in rest
      {
      }
    }
  }

  /** The labels of a suffix: the first slot's stripped text when it is active, then the rest. */
  lemma ActiveLabelsStep(slots: seq<LabelSlot>, from: nat)
    requires from < |slots|
    ensures ActiveLabels(slots[from..])
      == (if Active(slots[from]) then [Strip(slots[from].text)] else []) + ActiveLabels(slots[from + 1..])
  {
    assert slots[from..][1..] == slots[from + 1..];
  }

  /** The k-th label is the stripped text of the slot at the k-th position. */
  lemma {:induction false} ActiveLabelsFrom(slots: seq<LabelSlot>, from: nat)
    requires from <= |slots|
    ensures var pos := ActivePositions(slots, from);
      var r := ActiveLabels(slots[from..]);
      && |pos| == |r|
      && (forall k :: 0 <= k < |pos| ==> r[k] == Strip(slots[pos[k]].text))
    decreases |slots| - from
  {
    if from < |slots| {
      ActiveLabelsFrom(slots, from + 1);
      ActiveLabelsStep(slots, from);
      var pos := ActivePositions(slots, from);
      var rest := ActivePositions(slots, from + 1);
      var r := ActiveLabels(slots[from..]);
      var r' := ActiveLabels(slots[from + 1..]);
      if Active(slots[from]) {
        forall k | 0 < k < |pos|
          ensures pos[k] == rest[k - 1] && r[k] == r'[k - 1]
        {
        }
      }
    }
  }

  /**
   * The labels are exactly the stripped texts of the active slots: the k-th
   * label comes from the k-th active slot, the positions increase, and a slot
   * is among them if and only if it is active.
   */
  lemma ActiveLabelsExactly(slots: seq<LabelSlot>)
    ensures var pos := ActivePositions(slots, 0);
      var r := ActiveLabels(slots);
      && |pos| == |r|
      && (forall k :: 0 <= k < |pos| ==> pos[k] < |slots| && r[k] == Strip(slots[pos[k]].text))
      && (forall k, l :: 0 <= k < l < |pos| ==> pos[k] < pos[l])
      && (forall i :: 0 <= i < |slots| ==> (Active(slots[i]) <==> i in pos))
  {
    ActivePositionsIncrease(slots, 0);
    ActivePositionsMembers(slots, 0);
    ActiveLabelsFrom(slots, 0);
    assert slots[0..] == slots;
  }

  /**
   * `get_overlay_for_preview`: whether the file name is to be shown, and the
   * labels of the panel's own side.
   */
  function OverlayForPreview(embed: bool, slots1: seq<LabelSlot>, slots2: seq<LabelSlot>, side: Side): (r: (bool, seq<string>))
    ensures r.0 == embed
    ensures forall k :: 0 <= k < |r.1| ==> r.1[k] != ""
    ensures r.1 == ActiveLabels(if side == Left then slots1 else slots2)
  {
    (embed, ActiveLabels(if side == Left then slots1 else slots2))
  }
}
