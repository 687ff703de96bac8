/**
 * Commands with undo and redo in the low-code editor
 * (src/packages/useCommand.ts). A command's `execute` returns a `redo`
 * and an `undo`; `redo` runs at once, and commands marked `pushQueue`
 * record the pair in a history queue with a cursor `current`.
 *
 * Every recorded `redo`/`undo` of the source replaces either the whole
 * editor data or its `blocks`, so each is an `Action` value.
 */
module EditorCommand {
  import opened Wrappers
  import opened JsValues
  import opened EditorFocus

  /** The editor's data: the container settings and the blocks. */
  datatype EditorData = EditorData(container: Value, blocks: seq<Block>)

  /** What a recorded `redo` or `undo` does to the data. */
  datatype Action = SetBlocks(blocks: seq<Block>) | SetData(data: EditorData)

  /** `data.value = { ...data.value, blocks }` or `data.value = d`. */
  function Perform(a: Action, d: EditorData): (r: EditorData)
    ensures a.SetBlocks? ==> r.container == d.container && r.blocks == a.blocks
    ensures a.SetData? ==> r == a.data
  {
    match a
    case SetBlocks(blocks) => d.(blocks := blocks)
    case SetData(data) => data
  }

  /** A history entry: the `redo` and `undo` a command returned. */
  datatype Entry = Entry(redo: Action, undo: Action)

  /** A registered command: its name, its key binding and whether it is recorded. */
  datatype CommandInfo = CommandInfo(name: string, keyboard: Option<string>, pushQueue: bool)

  /** The commands `useCommand` registers, in registration order. */
  const BuiltInCommands: seq<CommandInfo> := [
    CommandInfo("redo", Some("ctrl+y"), false),
    CommandInfo("undo", Some("ctrl+z"), false),
    CommandInfo("drag", None, true),
    CommandInfo("updateContainer", None, true),
    CommandInfo("updateBlock", None, true),
    CommandInfo("placeTop", None, true),
    CommandInfo("placeBottom", None, true),
    CommandInfo("delete", None, true)]

  // ------------------------------------------------------------ z-index

  /** `Number.MIN_SAFE_INTEGER` and `Number.MAX_SAFE_INTEGER` */
  const MinSafeInteger: int := -0x1F_FFFF_FFFF_FFFF
  const MaxSafeInteger: int := 0x1F_FFFF_FFFF_FFFF

  /** `blocks.reduce((prev, b) => Math.max(prev, b.zIndex), init)` */
  function MaxZ(blocks: seq<Block>, init: int): (m: int)
    ensures m >= init && forall i :: 0 <= i < |blocks| ==> blocks[i].zIndex <= m
    ensures m == init || exists i :: 0 <= i < |blocks| && blocks[i].zIndex == m
    decreases |blocks|
  {
    if |blocks| == 0 then init
    else
      var m := MaxZ(blocks[..|blocks| - 1], init);
      var z := blocks[|blocks| - 1].zIndex;
      if z > m then z else m
  }

  /** `blocks.reduce((prev, b) => Math.min(prev, b.zIndex), init)` */
  function MinZ(blocks: seq<Block>, init: int): (m: int)
    ensures m <= init && forall i :: 0 <= i < |blocks| ==> m <= blocks[i].zIndex
    ensures m == init || exists i :: 0 <= i < |blocks| && blocks[i].zIndex == m
    decreases |blocks|
  {
    if |blocks| == 0 then init
    else
      var m := MinZ(blocks[..|blocks| - 1], init);
      var z := blocks[|blocks| - 1].zIndex;
      if z < m then z else m
  }

  /** `placeTop`: every focused block goes one above the highest unfocused block. */
  function PlaceTop(blocks: seq<Block>): (r: seq<Block>)
    ensures |r| == |blocks|
  {
    var top := MaxZ(GetFocusData(blocks).unfocused, MinSafeInteger) + 1;
    seq(|blocks|, i requires 0 <= i < |blocks| => if blocks[i].focus then blocks[i].(zIndex := top) else blocks[i])
  }

  /** The offset `placeBottom` adds to unfocused blocks, and the z-index it gives focused ones. */
  function BottomShift(blocks: seq<Block>): (int, int)
  {
    var m := MinZ(GetFocusData(blocks).unfocused, MaxSafeInteger) - 1;
    if m < 0 then (-m, 0) else (0, m)
  }

  /**
   * `placeBottom`: focused blocks go one below the lowest unfocused block;
   * if that is negative, the unfocused blocks are first raised so that the
   * focused ones sit at 0.
   */
  function PlaceBottom(blocks: seq<Block>): (r: seq<Block>)
    ensures |r| == |blocks|
  {
    var (dur, bottom) := BottomShift(blocks);
    seq(|blocks|, i requires 0 <= i < |blocks| =>
      if blocks[i].focus then blocks[i].(zIndex := bottom) else blocks[i].(zIndex := blocks[i].zIndex + dur))
  }

  /** Unfocused blocks appear in `GetFocusData(...).unfocused`. */
  lemma UnfocusedListed(blocks: seq<Block>, i: nat)
    requires i < |blocks| && !blocks[i].focus
    ensures blocks[i] in GetFocusData(blocks).unfocused
  {
  }

  /** After `placeTop` every focused block lies strictly above every unfocused one; nothing else moves. */
  lemma PlaceTopRaisesFocused(blocks: seq<Block>)
    ensures var r := PlaceTop(blocks);
      && (forall i, j :: 0 <= i < |r| && 0 <= j < |r| && r[i].focus && !r[j].focus ==> r[i].zIndex > r[j].zIndex)
      && (forall i :: 0 <= i < |r| && !blocks[i].focus ==> r[i] == blocks[i])
      && (forall i :: 0 <= i < |r| ==> r[i].focus == blocks[i].focus && r[i].attrs == blocks[i].attrs)
  {
    var r := PlaceTop(blocks);
    var u := GetFocusData(blocks).unfocused;
    forall j | 0 <= j < |r| && !r[j].focus
      ensures r[j].zIndex <= MaxZ(u, MinSafeInteger)
    {
      UnfocusedListed(blocks, j);
      var k :| 0 <= k < |u| && u[k] == blocks[j];
    }
  }

  /** After `placeBottom` every focused block lies strictly below every unfocused one, at a z-index of 0 or more. */
  lemma PlaceBottomLowersFocused(blocks: seq<Block>)
    ensures var r := PlaceBottom(blocks);
      && (forall i, j :: 0 <= i < |r| && 0 <= j < |r| && r[i].focus && !r[j].focus ==> r[i].zIndex < r[j].zIndex)
      && (forall i :: 0 <= i < |r| && r[i].focus ==> r[i].zIndex >= 0)
      && (forall i :: 0 <= i < |r| ==> r[i].focus == blocks[i].focus && r[i].attrs == blocks[i].attrs)
  {
    var r := PlaceBottom(blocks);
    var u := GetFocusData(blocks).unfocused;
    var m := MinZ(u, MaxSafeInteger);
    forall j | 0 <= j < |r| && !r[j].focus
      ensures m <= blocks[j].zIndex
    {
      UnfocusedListed(blocks, j);
      var k :| 0 <= k < |u| && u[k] == blocks[j];
    }
  }

  /** When the lowest unfocused z-index is 3, focused blocks get 2 and nothing else moves. */
  lemma PlaceBottomExample(a: Value, b: Value)
    ensures PlaceBottom([Block(3, false, a), Block(7, true, b)]) == [Block(3, false, a), Block(2, true, b)]
  {
    var blocks := [Block(3, false, a), Block(7, true, b)];
    assert GetFocusData(blocks).unfocused == [Block(3, false, a)] by {
      assert blocks[..1] == [Block(3, false, a)];
      assert blocks[..1][..0] == [];
    }
    assert MinZ([Block(3, false, a)], MaxSafeInteger) == 3 by {
      assert [Block(3, false, a)][..0] == [];
    }
  }

  /** `updateBlock`'s new block list: `oldBlock` replaced by `newBlock` where it is found, else unchanged. */
  function ReplaceBlock(blocks: seq<Block>, newBlock: Block, oldBlock: Block): (r: seq<Block>)
    ensures |r| == |blocks|
    ensures oldBlock !in blocks ==> r == blocks
    ensures oldBlock in blocks ==> exists i :: 0 <= i < |blocks| && blocks[i] == oldBlock && oldBlock !in blocks[..i] && r == blocks[i := newBlock]
  {
    if |blocks| == 0 then []
    else if blocks[0] == oldBlock then [newBlock] + blocks[1..]
    else
      var rest := ReplaceBlock(blocks[1..], newBlock, oldBlock);
      if oldBlock in blocks[1..] then
        var i :| 0 <= i < |blocks[1..]| && blocks[1..][i] == oldBlock && oldBlock !in blocks[1..][..i] && rest == blocks[1..][i := newBlock];
        assert [blocks[0]] + rest == blocks[i + 1 := newBlock];
        assert blocks[..i + 1] == [blocks[0]] + blocks[1..][..i];
        [blocks[0]] + rest
      else [blocks[0]] + rest
  }

  /** A call of one of the built-in commands, with its arguments. */
  datatype CommandCall =
    | Redo
    | Undo
    | Drag(before: Option<seq<Block>>)
    | UpdateContainer(val: EditorData)
    | UpdateBlock(newBlock: Block, oldBlock: Block)
    | PlaceTopCmd
    | PlaceBottomCmd
    | Delete

  /**
   * The entry `execute` returns for a recorded command, given the data at
   * the call. `drag` undoes to the blocks saved when the drag started (an
   * empty list when none were saved).
   */
  function EntryOf(call: CommandCall, d: EditorData): Entry
    requires !call.Redo? && !call.Undo?
  {
    match call
    case Drag(before) => Entry(SetBlocks(d.blocks), SetBlocks(before.GetOr([])))
    case UpdateContainer(val) => Entry(SetData(val), SetData(d))
    case UpdateBlock(newBlock, oldBlock) => Entry(SetBlocks(ReplaceBlock(d.blocks, newBlock, oldBlock)), SetBlocks(d.blocks))
    case PlaceTopCmd => Entry(SetBlocks(PlaceTop(d.blocks)), SetBlocks(d.blocks))
    case PlaceBottomCmd => Entry(SetBlocks(PlaceBottom(d.blocks)), SetBlocks(d.blocks))
    case Delete => Entry(SetBlocks(GetFocusData(d.blocks).unfocused), SetBlocks(d.blocks))
  }

  // ------------------------------------------------------------ history

  /** The history and the data it acts on, as a value. */
  datatype History = History(current: int, queue: seq<Entry>, data: EditorData)

  /** `-1 <= current <= |queue| - 1` */
  predicate HistoryValid(h: History)
  {
    -1 <= h.current < |h.queue|
  }

  /** Recording an entry: the entries after `current` are dropped and the new one becomes current. */
  function Push(h: History, e: Entry): (r: History)
    requires HistoryValid(h)
    ensures HistoryValid(r) && r.current == |r.queue| - 1 && r.current == h.current + 1
    ensures r.queue == h.queue[..h.current + 1] + [e] && r.data == h.data
  {
    var queue := if |h.queue| > 0 then h.queue[..h.current + 1] else h.queue;
    History(h.current + 1, queue + [e], h.data)
  }

  /** The `redo` command: re-applies the next entry, if there is one. */
  function RedoStep(h: History): (r: History)
    requires HistoryValid(h)
    ensures HistoryValid(r) && r.queue == h.queue
    ensures h.current + 1 < |h.queue| ==> r == History(h.current + 1, h.queue, Perform(h.queue[h.current + 1].redo, h.data))
    ensures h.current + 1 >= |h.queue| ==> r == h
  {
    if h.current + 1 < |h.queue| then History(h.current + 1, h.queue, Perform(h.queue[h.current + 1].redo, h.data))
    else h
  }

  /** The `undo` command: reverts the current entry, unless there is none. */
  function UndoStep(h: History): (r: History)
    requires HistoryValid(h)
    ensures HistoryValid(r) && r.queue == h.queue
    ensures h.current == -1 ==> r == h
    ensures h.current >= 0 ==> r == History(h.current - 1, h.queue, Perform(h.queue[h.current].undo, h.data))
  {
    if h.current == -1 then h
    else History(h.current - 1, h.queue, Perform(h.queue[h.current].undo, h.data))
  }

  /** `state.commands[name](...)`: redo at once, then record the entry when the command is recorded. */
  function Run(h: History, call: CommandCall): (r: History)
    requires HistoryValid(h)
    ensures HistoryValid(r)
  {
    match call
    case Redo => RedoStep(h)
    case Undo => UndoStep(h)
    case _ =>
      var e := EntryOf(call, h.data);
      Push(h.(data := Perform(e.redo, h.data)), e)
  }

  /** Undo right after a recorded command restores the data, except that `drag` restores its saved blocks. */
  lemma UndoAfterCommand(h: History, call: CommandCall)
    requires HistoryValid(h) && !call.Redo? && !call.Undo?
    ensures var r := UndoStep(Run(h, call));
      && r.current == h.current
      && (!call.Drag? ==> r.data == h.data)
      && (call.Drag? ==> r.data == h.data.(blocks := call.before.GetOr([])))
  {
  }

  /** Redo right after an undo re-applies the undone entry: the data is back to what the command produced. */
  lemma RedoAfterUndoAfterCommand(h: History, call: CommandCall)
    requires HistoryValid(h) && !call.Redo? && !call.Undo?
    ensures RedoStep(UndoStep(Run(h, call))) == Run(h, call)
  {
  }

  /** Recording after undos discards the undone entries: redo is then a no-op. */
  lemma PushDropsRedoTail(h: History, call: CommandCall)
    requires HistoryValid(h) && !call.Redo? && !call.Undo?
    ensures RedoStep(Run(h, call)) == Run(h, call)
    ensures Run(h, call).queue[..h.current + 1] == h.queue[..h.current + 1]
  {
  }

  // ------------------------------------------------------- key bindings

  /** The key string of a keydown: `"ctrl+" + key` with the control key held, else `key`. */
  function KeyString(ctrlKey: bool, key: string): string
  {
    if ctrlKey then "ctrl+" + key else key
  }

  /** The names of the commands a key string runs, in registration order. */
  function Matching(commands: seq<CommandInfo>, keyStr: string): (r: seq<string>)
    ensures |r| <= |commands|
    decreases |commands|
  {
    if |commands| == 0 then []
    else
      var rest := Matching(commands[1..], keyStr);
      if commands[0].keyboard == Some(keyStr) then [commands[0].name] + rest else rest
  }

  /** Ctrl+Z runs only `undo`, Ctrl+Y only `redo`, and a plain "z" runs nothing. */
  lemma BuiltInBindings()
    ensures Matching(BuiltInCommands, KeyString(true, "z")) == ["undo"]
    ensures Matching(BuiltInCommands, KeyString(true, "y")) == ["redo"]
    ensures Matching(BuiltInCommands, KeyString(false, "z")) == []
  {
    assert KeyString(true, "z") == "ctrl+z";
    assert KeyString(true, "y") == "ctrl+y";
    BindingsOfBuiltIns("ctrl+z");
    BindingsOfBuiltIns("ctrl+y");
    BindingsOfBuiltIns("z");
  }

  // ------------------------------------------------------- the object

  /** The `state` object of `useCommand`, with the editor data it updates. */
  class CommandState {
    var current: int
    var queue: seq<Entry>
    var commandArray: seq<CommandInfo>
    var data: EditorData

    ghost function Snapshot(): History
      reads this
    {
      History(current, queue, data)
    }

    ghost predicate Valid()
      reads this
    {
      HistoryValid(Snapshot())
    }

    /** `useCommand(data, focusData)`: an empty history and the built-in commands, registered in order. */
    constructor(data: EditorData)
      ensures Valid() && current == -1 && queue == [] && this.data == data
      ensures commandArray == BuiltInCommands
    {
      current := -1;
      queue := [];
      commandArray := [];
      this.data := data;
      new;
      var i := 0;
      while i < |BuiltInCommands|
        invariant 0 <= i <= |BuiltInCommands|
        invariant commandArray == BuiltInCommands[..i]
        invariant current == -1 && queue == [] && this.data == data
        decreases |BuiltInCommands| - i
      {
        Register(BuiltInCommands[i]);
        i := i + 1;
      }
    }

    /** `register(command)`: appends the command. */
    method Register(command: CommandInfo)
      modifies this`commandArray
      ensures commandArray == old(commandArray) + [command]
    {
      commandArray := commandArray + [command];
    }

    /** The tail of a recorded command: `queue.slice(0, current + 1)`, push, `current + 1`. */
    method PushEntry(e: Entry)
      requires Valid()
      modifies this`current, this`queue
      ensures Valid() && Snapshot() == Push(old(Snapshot()), e)
    {
      var q := queue;
      var cur := current;
      if |q| > 0 {
        q := q[..cur + 1];
        queue := q;
      }
      queue := q + [e];
      current := cur + 1;
    }

    /** The `redo` command's `redo`. */
    method RedoCommand()
      requires Valid()
      modifies this`current, this`data
      ensures Valid() && Snapshot() == RedoStep(old(Snapshot()))
    {
      if current + 1 < |queue| {
        var item := queue[current + 1];
        data := Perform(item.redo, data);
        current := current + 1;
      }
    }

    /** The `undo` command's `redo`. */
    method UndoCommand()
      requires Valid()
      modifies this`current, this`data
      ensures Valid() && Snapshot() == UndoStep(old(Snapshot()))
    {
      if current == -1 {
        return;
      }
      var item := queue[current];
      data := Perform(item.undo, data);
      current := current - 1;
    }

    /** `state.commands[name](...args)` for a built-in command. */
    method RunCommand(call: CommandCall)
      requires Valid()
      modifies this`current, this`queue, this`data
      ensures Valid() && Snapshot() == Run(old(Snapshot()), call)
    {
      match call
      case Redo => RedoCommand();
      case Undo => UndoCommand();
      case _ =>
        var e := EntryOf(call, data);
        data := Perform(e.redo, data);
        PushEntry(e);
    }

    /** The keydown listener: runs every command bound to the key string, in registration order. */
    method Keydown(ctrlKey: bool, key: string) returns (ran: seq<string>)
      requires Valid() && commandArray == BuiltInCommands
      modifies this`current, this`queue, this`data
      ensures Valid()
      ensures ran == Matching(commandArray, KeyString(ctrlKey, key))
      ensures ran == ["undo"] ==> Snapshot() == UndoStep(old(Snapshot()))
      ensures ran == ["redo"] ==> Snapshot() == RedoStep(old(Snapshot()))
      ensures ran == [] ==> Snapshot() == old(Snapshot())
    {
      var keyStr := KeyString(ctrlKey, key);
      ran := Matching(commandArray, keyStr);
      BindingsOfBuiltIns(keyStr);
      if ran == ["redo"] {
        RedoCommand();
      } else if ran == ["undo"] {
        UndoCommand();
      }
    }
  }

  /** Among the built-in commands only `undo` and `redo` have key bindings, and they differ. */
  lemma BindingsOfBuiltIns(keyStr: string)
    ensures Matching(BuiltInCommands, keyStr) == (if keyStr == "ctrl+y" then ["redo"] else if keyStr == "ctrl+z" then ["undo"] else [])
  {
    var c := BuiltInCommands;
    assert c[1..][1..][1..][1..][1..][1..][1..][1..] == [];
  }
}
