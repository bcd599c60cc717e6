/**
 * BaseNode of include/BaseNode.h: a node's identity, hierarchy links,
 * flags and component bookkeeping, changed in place by its setters.
 */
module BaseNodes {
  import opened Common
  import opened Handles

  /** `s` without its first handle equal (by UUID) to `id`; later duplicates stay. */
  function WithoutFirst(s: seq<Handle>, id: Uuid): (r: seq<Handle>)
  {
    if s == [] then []
    else if s[0].id == id then s[1..]
    else [s[0]] + WithoutFirst(s[1..], id)
  }

  /** How many handles of `s` carry `id`. */
  function CountId(s: seq<Handle>, id: Uuid): (n: nat)
  {
    if s == [] then 0 else (if s[0].id == id then 1 else 0) + CountId(s[1..], id)
  }

  /** Some handle of `s` carries `id`. */
  predicate ContainsId(s: seq<Handle>, id: Uuid) {
    exists k :: 0 <= k < |s| && s[k].id == id
  }

  lemma {:induction false} CountIdPositive(s: seq<Handle>, id: Uuid)
    ensures CountId(s, id) > 0 <==> ContainsId(s, id)
  {
    if s != [] {
      CountIdPositive(s[1..], id);
      if s[0].id != id && ContainsId(s, id) {
        var k :| 0 <= k < |s| && s[k].id == id;
        assert s[1..][k - 1].id == id;
      }
      if ContainsId(s[1..], id) {
        var k :| 0 <= k < |s[1..]| && s[1..][k].id == id;
        assert s[k + 1].id == id;
      }
    }
  }

  /**
   * First-match erase removes exactly one occurrence when there is one
   * (later duplicates remain), leaves every other UUID's count alone,
   * and changes nothing otherwise.
   */
  lemma {:induction false} WithoutFirstCounts(s: seq<Handle>, id: Uuid, other: Uuid)
    ensures CountId(WithoutFirst(s, id), id) == if CountId(s, id) > 0 then CountId(s, id) - 1 else 0
    ensures other != id ==> CountId(WithoutFirst(s, id), other) == CountId(s, other)
    ensures CountId(s, id) == 0 ==> WithoutFirst(s, id) == s
    ensures |WithoutFirst(s, id)| == if CountId(s, id) > 0 then |s| - 1 else |s|
  {
    if s != [] {
      WithoutFirstCounts(s[1..], id, other);
      if s[0].id != id {
        var t := WithoutFirst(s[1..], id);
        assert ([s[0]] + t)[1..] == t;
      }
    }
  }

  /** The first-match erase as an index: everything before the first match, then everything after it. */
  lemma {:induction false} WithoutFirstAt(s: seq<Handle>, id: Uuid, i: nat)
    requires i < |s| && s[i].id == id && forall k :: 0 <= k < i ==> s[k].id != id
    ensures WithoutFirst(s, id) == s[..i] + s[i + 1..]
  {
    if i > 0 {
      WithoutFirstAt(s[1..], id, i - 1);
      assert s[1..][..i - 1] == s[1..i];
      assert s[1..][i..] == s[i + 1..];
      assert [s[0]] + s[1..i] == s[..i];
    }
  }

  /** Without a match, the erase changes nothing. */
  lemma {:induction false} WithoutFirstAbsent(s: seq<Handle>, id: Uuid)
    requires forall k :: 0 <= k < |s| ==> s[k].id != id
    ensures WithoutFirst(s, id) == s
  {
    if s != [] {
      WithoutFirstAbsent(s[1..], id);
    }
  }

  /**
   * Position of the first handle of `s` carrying `id`, scanning from the
   * front (the iterator loops of RemoveChild and of the root-list erases).
   */
  method FindFirst(s: seq<Handle>, id: Uuid) returns (r: Option<nat>)
    ensures r.None? <==> !ContainsId(s, id)
    ensures r.None? ==> WithoutFirst(s, id) == s
    ensures r.Some? ==> r.value < |s| && s[r.value].id == id && WithoutFirst(s, id) == s[..r.value] + s[r.value + 1..]
  {
    var i := 0;
    while i < |s|
      invariant 0 <= i <= |s|
      invariant forall k :: 0 <= k < i ==> s[k].id != id
    {
      if s[i].id == id {
        WithoutFirstAt(s, id, i);
        return Some(i);
      }
      i := i + 1;
    }
    WithoutFirstAbsent(s, id);
    return None;
  }

  /** Erase the first handle of `s` carrying `id`, by an index scan. */
  method EraseFirst(s: seq<Handle>, id: Uuid) returns (r: seq<Handle>)
    ensures r == WithoutFirst(s, id)
  {
    var found := FindFirst(s, id);
    if found.None? {
      return s;
    }
    r := s[..found.value] + s[found.value + 1..];
  }

  /** `n` cleared bits. */
  function Falses(n: nat): (r: seq<bool>)
    ensures |r| == n && forall k :: 0 <= k < n ==> !r[k]
  {
    if n == 0 then [] else Falses(n - 1) + [false]
  }

  /** One 64-bit word of a component mask, bit by bit. */
  type Word = w: seq<bool> | |w| == 64 witness Falses(64)

  const ZeroWord: Word := Falses(64)

  /** Every field of a BaseNode, as one value. */
  datatype NodeFields = NodeFields(self: Handle, parent: Handle, children: seq<Handle>, name: string, active: bool,
                                   replicated: bool, componentTypes: seq<TypeId>, componentMask: seq<Word>,
                                   maskVersion: U32, ownerGraph: Ptr, world: Ptr, typeKey: TypeId)

  class BaseNode {
    var self: Handle
    var parent: Handle
    var children: seq<Handle>
    var name: string
    var active: bool
    var replicated: bool
    var componentTypes: seq<TypeId>
    var componentMask: seq<Word>
    var maskVersion: U32
    var ownerGraph: Ptr
    var world: Ptr
    var typeKey: TypeId

    /** The node's fields, so that a setter can say which one it changes. */
    function Fields(): NodeFields
      reads this
    {
      NodeFields(self, parent, children, name, active, replicated, componentTypes, componentMask,
                 maskVersion, ownerGraph, world, typeKey)
    }

    /**
     * A new node: named "Node", active, not replicated, with null self and
     * parent handles, no children, no components and no graph or world.
     * `baseNodeType` is the static type id of BaseNode.
     */
    constructor (baseNodeType: TypeId)
      ensures name == "Node" && active && !replicated
      ensures IsNull(self) && IsNull(parent) && children == []
      ensures componentTypes == [] && componentMask == [] && maskVersion == 0
      ensures ownerGraph == Null && world == Null && typeKey == baseNodeType
    {
      self, parent, children := NullHandle, NullHandle, [];
      name, active, replicated := "Node", true, false;
      componentTypes, componentMask, maskVersion := [], [], 0;
      ownerGraph, world, typeKey := Null, Null, baseNodeType;
    }

    /** Id(Uuid): the self handle becomes the bare UUID, without a runtime key; no other field changes. */
    method SetId(id: Uuid)
      modifies this`self
      ensures self == FromId(id) && !HasRuntimeKey(self) && self.id == id
      ensures parent == old(parent) && children == old(children) && name == old(name)
      ensures Fields() == old(Fields()).(self := FromId(id))
    {
      self := FromId(id);
    }

    /** Handle(NodeHandle): the self handle is replaced as given; no other field changes. */
    method SetHandle(h: Handle)
      modifies this`self
      ensures self == h
      ensures parent == old(parent) && children == old(children) && name == old(name)
      ensures Fields() == old(Fields()).(self := h)
    {
      self := h;
    }

    /** Parent(NodeHandle): only the parent handle changes. */
    method SetParent(h: Handle)
      modifies this`parent
      ensures parent == h
      ensures self == old(self) && children == old(children) && componentTypes == old(componentTypes)
      ensures Fields() == old(Fields()).(parent := h)
    {
      parent := h;
    }

    /** AddChild: appends, without looking for an existing entry; only the child list changes. */
    method AddChild(child: Handle)
      modifies this`children
      ensures children == old(children) + [child]
      ensures CountId(children, child.id) == CountId(old(children), child.id) + 1
      ensures self == old(self) && parent == old(parent) && componentTypes == old(componentTypes)
      ensures Fields() == old(Fields()).(children := old(children) + [child])
    {
      AppendCount(children, child);
      children := children + [child];
    }

    /** RemoveChild: erases only the first child whose UUID matches; only the child list changes. */
    method RemoveChild(child: Handle)
      modifies this`children
      ensures children == WithoutFirst(old(children), child.id)
      ensures self == old(self) && parent == old(parent) && componentTypes == old(componentTypes)
      ensures componentMask == old(componentMask) && active == old(active)
      ensures Fields() == old(Fields()).(children := WithoutFirst(old(children), child.id))
    {
      children := EraseFirst(children, child.id);
    }
  }

  lemma {:induction false} AppendCount(s: seq<Handle>, h: Handle)
    ensures CountId(s + [h], h.id) == CountId(s, h.id) + 1
  {
    if s != [] {
      assert (s + [h])[1..] == s[1..] + [h];
      AppendCount(s[1..], h);
    } else {
      assert [h][1..] == [];
    }
  }
}
