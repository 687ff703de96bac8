/**
 * Block selection in the low-code editor (src/packages/useFocus.ts): the
 * blocks carry a `focus` flag that mouse clicks set and clear, and
 * `focusData` splits the blocks into the focused and the unfocused ones.
 */
module EditorFocus {
  import opened JsValues

  /**
   * A block of the editor canvas. Only `zIndex` and `focus` are read or
   * written by the modelled code; the other properties are `attrs`.
   */
  datatype Block = Block(zIndex: int, focus: bool, attrs: Value)

  /** The blocks whose `focus` equals `f`, in order. */
  function WithFocus(blocks: seq<Block>, f: bool): (r: seq<Block>)
    ensures |r| <= |blocks|
    ensures forall i :: 0 <= i < |r| ==> r[i].focus == f
    ensures forall b :: b in blocks && b.focus == f ==> b in r
    ensures forall b :: b in r ==> b in blocks
    decreases |blocks|
  {
    if |blocks| == 0 then []
    else
      var rest := WithFocus(blocks[..|blocks| - 1], f);
      var last := blocks[|blocks| - 1];
      assert forall b :: b in blocks ==> b in blocks[..|blocks| - 1] || b == last;
      if last.focus == f then rest + [last] else rest
  }

  datatype FocusData = FocusData(focus: seq<Block>, unfocused: seq<Block>)

  /** `focusData`: each block goes to `focus` or `unfocused` by its flag, in order. */
  function GetFocusData(blocks: seq<Block>): (r: FocusData)
    ensures forall i :: 0 <= i < |r.focus| ==> r.focus[i].focus
    ensures forall i :: 0 <= i < |r.unfocused| ==> !r.unfocused[i].focus
  {
    FocusData(WithFocus(blocks, true), WithFocus(blocks, false))
  }

  /** The two lists partition the blocks: together they hold each block exactly as often as `blocks` does. */
  lemma {:induction false} FocusDataPartitions(blocks: seq<Block>)
    ensures multiset(GetFocusData(blocks).focus) + multiset(GetFocusData(blocks).unfocused) == multiset(blocks)
    decreases |blocks|
  {
    if |blocks| > 0 {
      var pre := blocks[..|blocks| - 1];
      FocusDataPartitions(pre);
      assert blocks == pre + [blocks[|blocks| - 1]];
    }
  }

  /** Every block with its focus cleared (`clearBlockFocus`). */
  function Cleared(blocks: seq<Block>): (r: seq<Block>)
    ensures |r| == |blocks|
    ensures forall i :: 0 <= i < |r| ==> r[i] == blocks[i].(focus := false)
  {
    seq(|blocks|, i requires 0 <= i < |blocks| => blocks[i].(focus := false))
  }

  /** The blocks after a mousedown on block `index`, outside preview mode. */
  function Clicked(blocks: seq<Block>, shift: bool, index: nat): (r: seq<Block>)
    requires index < |blocks|
    ensures |r| == |blocks|
  {
    var b := blocks[index];
    if shift then
      if |GetFocusData(blocks).focus| <= 1 then blocks[index := b.(focus := true)]
      else blocks[index := b.(focus := !b.focus)]
    else if !b.focus then Cleared(blocks)[index := b.(focus := true)]
    else blocks
  }

  /** A plain click on an unfocused block leaves that block, and only it, focused. */
  lemma PlainClickSelectsOnlyIt(blocks: seq<Block>, index: nat)
    requires index < |blocks| && !blocks[index].focus
    ensures var r := Clicked(blocks, false, index);
      r[index].focus && forall i :: 0 <= i < |r| && i != index ==> !r[i].focus
    ensures GetFocusData(Clicked(blocks, false, index)).focus == [blocks[index].(focus := true)]
  {
    var r := Clicked(blocks, false, index);
    OnlyOneFocused(r, index);
  }

  lemma {:induction false} OnlyOneFocused(r: seq<Block>, index: nat)
    requires index < |r| && r[index].focus && forall i :: 0 <= i < |r| && i != index ==> !r[i].focus
    ensures WithFocus(r, true) == [r[index]]
    decreases |r|
  {
    var pre := r[..|r| - 1];
    if index == |r| - 1 {
      NoneFocused(pre);
    } else {
      OnlyOneFocused(pre, index);
    }
  }

  lemma {:induction false} NoneFocused(r: seq<Block>)
    requires forall i :: 0 <= i < |r| ==> !r[i].focus
    ensures WithFocus(r, true) == []
    decreases |r|
  {
    if |r| > 0 {
      NoneFocused(r[..|r| - 1]);
    }
  }

  /** A plain click on a focused block changes nothing, so a multi-selection can be dragged. */
  lemma PlainClickOnFocusedKeepsSelection(blocks: seq<Block>, index: nat)
    requires index < |blocks| && blocks[index].focus
    ensures Clicked(blocks, false, index) == blocks
  {
  }

  /**
   * With shift held, the clicked block is focused when at most one block
   * was focused, and toggled otherwise; other blocks keep their flags.
   */
  lemma ShiftClick(blocks: seq<Block>, index: nat)
    requires index < |blocks|
    ensures var r := Clicked(blocks, true, index);
      && (|GetFocusData(blocks).focus| <= 1 ==> r[index].focus)
      && (|GetFocusData(blocks).focus| > 1 ==> r[index].focus == !blocks[index].focus)
      && forall i :: 0 <= i < |r| && i != index ==> r[i] == blocks[i]
  {
  }

  /** The editor's blocks as `useFocus` sees them, with the selected index and the preview flag. */
  class FocusState {
    var blocks: seq<Block>
    var selectedIndex: int
    var preview: bool

    /** `useFocus(...)`: nothing is selected yet. */
    constructor(blocks: seq<Block>, preview: bool)
      ensures this.blocks == blocks && selectedIndex == -1 && this.preview == preview
    {
      this.blocks := blocks;
      selectedIndex := -1;
      this.preview := preview;
    }

    /** `clearBlockFocus()`: the `forEach` sets every block's focus to false. */
    method ClearBlockFocus()
      modifies this`blocks
      ensures blocks == Cleared(old(blocks))
    {
      var i := 0;
      while i < |blocks|
        invariant 0 <= i <= |blocks| == |old(blocks)|
        invariant forall j :: 0 <= j < i ==> blocks[j] == old(blocks)[j].(focus := false)
        invariant forall j :: i <= j < |blocks| ==> blocks[j] == old(blocks)[j]
        decreases |blocks| - i
      {
        blocks := blocks[i := blocks[i].(focus := false)];
        i := i + 1;
      }
    }

    /**
     * `blockMousedown(e, block, index)` for the block at `index`: a no-op in
     * preview mode; otherwise the focus flags change as `Clicked` says and
     * the block becomes the selected one. The trailing `callback(e)` starts
     * the drag and is not part of this model.
     */
    method BlockMousedown(shift: bool, index: nat)
      requires index < |blocks|
      modifies this`blocks, this`selectedIndex
      ensures old(preview) ==> blocks == old(blocks) && selectedIndex == old(selectedIndex)
      ensures !old(preview) ==> blocks == Clicked(old(blocks), shift, index) && selectedIndex == index
    {
      if preview {
        return;
      }
      if shift {
        if |GetFocusData(blocks).focus| <= 1 {
          blocks := blocks[index := blocks[index].(focus := true)];
        } else {
          blocks := blocks[index := blocks[index].(focus := !blocks[index].focus)];
        }
      } else {
        var b := blocks[index];
        if !b.focus {
          ClearBlockFocus();
          blocks := blocks[index := b.(focus := true)];
        }
      }
      selectedIndex := index;
    }

    /** `containerMousedown()`: outside preview mode, clears every focus and the selection. */
    method ContainerMousedown()
      modifies this`blocks, this`selectedIndex
      ensures old(preview) ==> blocks == old(blocks) && selectedIndex == old(selectedIndex)
      ensures !old(preview) ==> blocks == Cleared(old(blocks)) && selectedIndex == -1
    {
      if preview {
        return;
      }
      ClearBlockFocus();
      selectedIndex := -1;
    }
  }

  /** After a click on the container nothing is focused. */
  lemma ContainerClickFocusesNothing(blocks: seq<Block>)
    ensures GetFocusData(Cleared(blocks)).focus == []
    ensures GetFocusData(Cleared(blocks)).unfocused == Cleared(blocks)
  {
    NoneFocused(Cleared(blocks));
    AllUnfocused(Cleared(blocks));
  }

  lemma {:induction false} AllUnfocused(r: seq<Block>)
    requires forall i :: 0 <= i < |r| ==> !r[i].focus
    ensures WithFocus(r, false) == r
    decreases |r|
  {
    if |r| > 0 {
      AllUnfocused(r[..|r| - 1]);
      assert r[..|r| - 1] + [r[|r| - 1]] == r;
    }
  }
}
