/**
 * Reading the noop host tree back as JSX: `childToJSX` and
 * `getChildrenAsJSX`. Host trees are walked with a fuel bound, since the
 * arrays of the host could in principle be cyclic.
 */
module NoopRoot {
  import opened Wrappers
  import opened JsValues
  import opened Jsx
  import opened NoopHost

  /** A string or a number: the children that `join("")` can merge. */
  predicate IsTextLike(v: Value)
  {
    v.Str? || v.Num?
  }

  /** `items.join("")` for strings and numbers. */
  function JoinText(items: seq<Value>): (s: string)
    requires forall i :: 0 <= i < |items| ==> IsTextLike(items[i])
    ensures |items| == 0 ==> s == ""
  {
    if |items| == 0 then ""
    else
      assert IsTextLike(items[0]);
      (if items[0].Str? then items[0].s else IntToString(items[0].n)) + JoinText(items[1..])
  }

  /** The element an instance reads back as: its type, null key and ref, and its props. */
  function HostElement(itype: Value, props: Value): (e: Value)
    ensures IsValidElement(e) && Get(e, "type") == itype && Get(e, "props") == props
    ensures Get(e, "key") == Null && Get(e, "ref") == Null
  {
    Rec(map["$$typeof" := REACT_ELEMENT_TYPE, "type" := itype, "key" := Null, "ref" := Null,
            "props" := props, "__mark" := Str("lq")])
  }

  /** `props.children = children` on a plain object; other values keep no property. */
  function WithChildren(props: Value, children: Value): Value
  {
    if props.Rec? then Rec(props.fields["children" := children]) else props
  }

  /**
   * `childToJSX` of one host node: an instance becomes an element whose
   * props gain the converted children (unless they convert to null); a
   * text instance becomes its text. An id the host does not hold, or
   * exhausted fuel, reads as undefined.
   */
  function NodeToJsx(nodes: map<nat, HostNode>, id: nat, fuel: nat): (r: Value)
    decreases fuel, 0
  {
    if fuel == 0 || id !in nodes then Undefined
    else match nodes[id]
      case TextInstance(text, _) => text
      case Instance(itype, props, children, _) =>
        var c := ChildrenToJsx(nodes, children, fuel - 1);
        HostElement(itype, if c != Null then WithChildren(props, c) else props)
  }

  /**
   * `childToJSX` of an array of host nodes: no children is null, one child
   * is that child's JSX, several children are joined into one string when
   * every one of them reads as a string or a number, and are an array of
   * their JSX otherwise.
   */
  function ChildrenToJsx(nodes: map<nat, HostNode>, ids: seq<nat>, fuel: nat): (r: Value)
    decreases fuel, 1
    ensures |ids| == 0 ==> r == Null
    ensures |ids| == 1 ==> r == NodeToJsx(nodes, ids[0], fuel)
    ensures r.Arr? && |ids| != 1 ==>
      |ids| >= 2 && |r.items| == |ids|
      && (forall i :: 0 <= i < |ids| ==> r.items[i] == NodeToJsx(nodes, ids[i], fuel))
      && exists i :: 0 <= i < |ids| && !IsTextLike(r.items[i])
  {
    if |ids| == 0 then Null
    else if |ids| == 1 then NodeToJsx(nodes, ids[0], fuel)
    else
      var items := seq(|ids|, i requires 0 <= i < |ids| => NodeToJsx(nodes, ids[i], fuel));
      if forall i :: 0 <= i < |items| ==> IsTextLike(items[i]) then Str(JoinText(items))
      else Arr(items)
  }

  /** `getChildrenAsJSX(container)`: an array result is wrapped in a fragment element. */
  function ChildrenAsJsx(nodes: map<nat, HostNode>, children: seq<nat>, fuel: nat): (r: Value)
    ensures ChildrenToJsx(nodes, children, fuel).Arr? ==>
      r == ReactElement(REACT_FRAGMENT_TYPE, Null, Null, map["children" := ChildrenToJsx(nodes, children, fuel)])
    ensures !ChildrenToJsx(nodes, children, fuel).Arr? ==> r == ChildrenToJsx(nodes, children, fuel)
  {
    var c := ChildrenToJsx(nodes, children, fuel);
    if c.Arr? then ReactElement(REACT_FRAGMENT_TYPE, Null, Null, map["children" := c]) else c
  }

  /** A container's JSX is never a bare array: several non-text children come back as a fragment. */
  lemma ChildrenAsJsxIsNeverArray(nodes: map<nat, HostNode>, children: seq<nat>, fuel: nat)
    ensures !ChildrenAsJsx(nodes, children, fuel).Arr?
    ensures ChildrenAsJsx(nodes, children, fuel).Rec? && ChildrenToJsx(nodes, children, fuel).Arr? ==>
      IsValidElement(ChildrenAsJsx(nodes, children, fuel))
      && Get(ChildrenAsJsx(nodes, children, fuel), "type") == REACT_FRAGMENT_TYPE
  {
  }

  /** Adjacent text instances read back as one string. */
  lemma AdjacentTextsJoin(nodes: map<nat, HostNode>, a: nat, b: nat, fuel: nat)
    requires a in nodes && b in nodes && fuel > 0
    requires nodes[a].TextInstance? && nodes[a].text.Str?
    requires nodes[b].TextInstance? && nodes[b].text.Str?
    ensures ChildrenToJsx(nodes, [a, b], fuel) == Str(nodes[a].text.s + nodes[b].text.s)
  {
    var items := seq(2, i requires 0 <= i < 2 => NodeToJsx(nodes, [a, b][i], fuel));
    assert items == [nodes[a].text, nodes[b].text];
    assert JoinText(items[1..]) == nodes[b].text.s + JoinText([]);
  }

  /**
   * An instance with a single text child reads back as an element whose
   * `children` prop is that text.
   */
  lemma InstanceWithTextChild(nodes: map<nat, HostNode>, id: nat, t: nat, fuel: nat)
    requires id in nodes && t in nodes && fuel >= 2
    requires nodes[id].Instance? && nodes[id].children == [t] && nodes[id].props.Rec?
    requires nodes[t].TextInstance? && nodes[t].text.Str?
    ensures var e := NodeToJsx(nodes, id, fuel);
      IsValidElement(e) && Get(e, "type") == nodes[id].itype
      && Get(Get(e, "props"), "children") == nodes[t].text
  {
    assert ChildrenToJsx(nodes, [t], fuel - 1) == nodes[t].text;
  }
}
