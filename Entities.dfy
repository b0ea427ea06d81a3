/** The entity-component system (cpp/memory_issue/include/EntitySystem.h):
    a growable array of `int`, a reference-counted texture, entities with
    component and child lists, and the manager that hands out entity ids.
    Memory is garbage collected here, so `delete` is a state change (a
    texture's `freed` flag) or nothing at all; behaviour the C++ leaves
    undefined (an index out of range, `pop` on an empty array, a use after
    free) is a precondition. */
module EntitySystem {
  import opened Wrappers
  import opened MachineInt

  // ---------------------------------------------------------------------
  // DynamicArray

  class DynamicArray {
    var data: array<int>
    var size: int
    var capacity: int

    /** `data` holds `capacity` slots, the first `size` of them in use. */
    ghost predicate Valid()
      reads this
    {
      0 < capacity == data.Length && 0 <= size <= capacity
    }

    /** The elements, in push order. */
    ghost function Contents(): seq<int>
      reads this, data
      requires Valid()
    {
      data[..size]
    }

    /** `DynamicArray(initialCapacity)`: empty, with that many slots. */
    constructor(initialCapacity: int)
      requires initialCapacity > 0
      ensures Valid() && fresh(data) && Contents() == [] && capacity == initialCapacity
    {
      data := new int[initialCapacity];
      size := 0;
      capacity := initialCapacity;
    }

    /** `resize`: twice the slots, the elements copied over to a new array. */
    method Resize()
      requires Valid()
      modifies this
      ensures Valid() && fresh(data) && capacity == 2 * old(capacity) && size == old(size)
      ensures Contents() == old(Contents())
    {
      capacity := capacity * 2;
      var newData := new int[capacity];
      for i := 0 to size
        modifies newData
        invariant size <= data.Length <= newData.Length
        invariant newData[..i] == data[..i]
      {
        newData[i] := data[i];
      }
      data := newData;
    }

    /** `push`: grows a full array first, then appends. */
    method Push(value: int)
      requires Valid()
      modifies this, data
      ensures Valid() && Contents() == old(Contents()) + [value]
      ensures capacity == if old(size) >= old(capacity) then 2 * old(capacity) else old(capacity)
    {
      if size >= capacity {
        Resize();
      }
      data[size] := value;
      size := size + 1;
    }

    /** `operator[]` read: only indices below `size` are defined. */
    method Get(index: int) returns (value: int)
      requires Valid() && 0 <= index < size
      ensures value == Contents()[index]
    {
      value := data[index];
    }

    /** `operator[]` write through the returned reference. */
    method Set(index: int, value: int)
      requires Valid() && 0 <= index < size
      modifies data
      ensures Valid() && Contents() == old(Contents())[index := value]
    {
      data[index] := value;
    }

    /** `pop`: the last element, removed; only defined on a non-empty array. */
    method Pop() returns (value: int)
      requires Valid() && size > 0
      modifies this
      ensures Valid() && capacity == old(capacity) && data == old(data)
      ensures value == old(Contents())[old(size) - 1]
      ensures Contents() == old(Contents())[..old(size) - 1]
    {
      size := size - 1;
      value := data[size];
    }
  }

  /** `pop` undoes `push`: the value comes back and the elements are as
      before. */
  method PushThenPop(a: DynamicArray, value: int) returns (back: int)
    requires a.Valid()
    modifies a, a.data
    ensures a.Valid() && back == value && a.Contents() == old(a.Contents())
  {
    a.Push(value);
    back := a.Pop();
  }

  // ---------------------------------------------------------------------
  // Texture

  class Texture {
    var width: int
    var height: int
    var refCount: int
    /** `delete this` has run. */
    var freed: bool

    /** A live texture has a holder; a freed one has none. */
    ghost predicate Valid()
      reads this
    {
      (!freed ==> refCount >= 1) && (freed ==> refCount == 0)
    }

    /** `Texture(w, h)`: one reference, held by its creator. */
    constructor(w: int, h: int)
      ensures Valid() && width == w && height == h && refCount == 1 && !freed
    {
      width := w;
      height := h;
      refCount := 1;
      freed := false;
    }

    /** `addRef`. */
    method AddRef()
      requires Valid() && !freed
      modifies this
      ensures Valid() && refCount == old(refCount) + 1 && !freed
      ensures width == old(width) && height == old(height)
    {
      refCount := refCount + 1;
    }

    /** `release`: drops a reference and frees the texture when none is left. */
    method Release()
      requires Valid() && !freed
      modifies this
      ensures Valid() && refCount == old(refCount) - 1
      ensures freed <==> old(refCount) == 1
      ensures width == old(width) && height == old(height)
    {
      refCount := refCount - 1;
      if refCount == 0 {
        freed := true;
      }
    }
  }

  /** `n` more holders each take and drop a reference, and then the creator
      drops its own: the texture is freed exactly at the last release. */
  method ShareAndRelease(t: Texture, n: nat)
    requires t.Valid() && !t.freed && t.refCount == 1
    modifies t
    ensures t.Valid() && t.freed && t.refCount == 0
  {
    for i := 0 to n
      invariant t.Valid() && !t.freed && t.refCount == 1 + i
    {
      t.AddRef();
    }
    for i := 0 to n
      invariant t.Valid() && !t.freed && t.refCount == 1 + n - i
    {
      t.Release();
    }
    t.Release();
  }

  // ---------------------------------------------------------------------
  // Entities

  datatype Kind = Transform | Sprite(width: int, height: int) | Script

  /** A component: its kind and its public `name`. */
  datatype Component = Component(name: string, kind: Kind)

  /** The components as their constructors name them. */
  function NewTransform(): (c: Component)
    ensures c.name == "Transform" && c.kind.Transform?
  {
    Component("Transform", Transform)
  }

  function NewSprite(w: int, h: int): (c: Component)
    ensures c.name == "Sprite" && c.kind == Sprite(w, h)
  {
    Component("Sprite", Sprite(w, h))
  }

  function NewScript(): (c: Component)
    ensures c.name == "Script" && c.kind.Script?
  {
    Component("Script", Script)
  }

  /** The place of the first component called `name`. */
  function FirstNamed(cs: seq<Component>, name: string): (r: Option<nat>)
    ensures r.Some? ==>
      && r.value < |cs| && cs[r.value].name == name
      && forall j :: 0 <= j < r.value ==> cs[j].name != name
    ensures r.None? ==> forall j :: 0 <= j < |cs| ==> cs[j].name != name
  {
    if cs == [] then None
    else if cs[0].name == name then Some(0)
    else match FirstNamed(cs[1..], name)
      case None => None
      case Some(i) => Some(i + 1)
  }

  /** The place of the first occurrence of `e`. */
  function FirstIndex<T(==)>(s: seq<T>, e: T): (r: Option<nat>)
    ensures r.Some? ==> r.value < |s| && s[r.value] == e && e !in s[..r.value]
    ensures r.None? ==> e !in s
  {
    if s == [] then None
    else if s[0] == e then Some(0)
    else match FirstIndex(s[1..], e)
      case None => None
      case Some(i) => assert s[..i + 1] == [s[0]] + s[1..][..i]; Some(i + 1)
  }

  class Entity {
    var name: string
    var components: seq<Component>
    var parent: Entity?
    var children: seq<Entity>

    /** `Entity(name)`: no parent, components or children. */
    constructor(name: string)
      ensures this.name == name && components == [] && parent == null && children == []
    {
      this.name := name;
      components := [];
      parent := null;
      children := [];
    }

    /** `addComponent`. */
    method AddComponent(comp: Component)
      modifies this
      ensures components == old(components) + [comp]
      ensures name == old(name) && parent == old(parent) && children == old(children)
    {
      components := components + [comp];
    }

    /** `getComponent`: the first component with that name, if any. */
    method GetComponent(name: string) returns (r: Option<Component>)
      ensures r.None? <==> FirstNamed(components, name).None?
      ensures r.Some? ==> r.value == components[FirstNamed(components, name).value]
    {
      for i := 0 to |components|
        invariant forall j :: 0 <= j < i ==> components[j].name != name
      {
        if components[i].name == name {
          NotEarlier(components, name, i);
          return Some(components[i]);
        }
      }
      return None;
    }

    /** `removeComponent`: drops the first component with that name, if any. */
    method RemoveComponent(name: string)
      modifies this
      ensures FirstNamed(old(components), name).None? ==> components == old(components)
      ensures FirstNamed(old(components), name).Some? ==>
        var i := FirstNamed(old(components), name).value;
        components == old(components)[..i] + old(components)[i + 1..]
      ensures this.name == old(this.name) && parent == old(parent) && children == old(children)
    {
      for i := 0 to |components|
        invariant forall j :: 0 <= j < i ==> components[j].name != name
        invariant components == old(components)
      {
        if components[i].name == name {
          NotEarlier(components, name, i);
          components := components[..i] + components[i + 1..];
          return;
        }
      }
    }

    /** `addChild`: the child points back to this entity. */
    method AddChild(child: Entity)
      modifies this, child
      ensures child.parent == this
      ensures children == old(children) + [child]
      ensures name == old(name) && components == old(components)
      ensures child.name == old(child.name) && child.components == old(child.components)
      ensures child != this ==> child.children == old(child.children) && parent == old(parent)
    {
      child.parent := this;
      children := children + [child];
    }

    /** `removeChild`: drops the first occurrence of the child and clears its
        parent; a child not in the list is left alone. */
    method RemoveChild(child: Entity)
      modifies this, child
      ensures FirstIndex(old(children), child).None? ==> children == old(children) && child.parent == old(child.parent)
      ensures FirstIndex(old(children), child).Some? ==>
        var i := FirstIndex(old(children), child).value;
        children == old(children)[..i] + old(children)[i + 1..] && child.parent == null
      ensures name == old(name) && components == old(components)
      ensures child.name == old(child.name) && child.components == old(child.components)
      ensures child != this ==> child.children == old(child.children) && parent == old(parent)
    {
      for i := 0 to |children|
        invariant child !in children[..i]
        invariant children == old(children) && child.parent == old(child.parent)
      {
        if children[i] == child {
          assert FirstIndex(children, child) == Some(i) by {
            FirstIndexIs(children, child, i);
          }
          children[i].parent := null;
          children := children[..i] + children[i + 1..];
          return;
        }
        assert children[..i + 1] == children[..i] + [children[i]];
      }
      assert children[..|children|] == children;
    }
  }

  /** A name found at `i` with none before it is the first. */
  lemma {:induction false} NotEarlier(cs: seq<Component>, name: string, i: nat)
    requires i < |cs| && cs[i].name == name
    requires forall j :: 0 <= j < i ==> cs[j].name != name
    ensures FirstNamed(cs, name) == Some(i)
  {
    if i > 0 {
      NotEarlier(cs[1..], name, i - 1);
    }
  }

  /** An element found at `i` and absent before it is at its first place. */
  lemma {:induction false} FirstIndexIs<T>(s: seq<T>, e: T, i: nat)
    requires i < |s| && s[i] == e && e !in s[..i]
    ensures FirstIndex(s, e) == Some(i)
  {
    if i > 0 {
      assert s[0] in s[..i];
      assert s[1..][..i - 1] == s[1..i];
      assert forall x :: x in s[1..i] ==> x in s[..i];
      FirstIndexIs(s[1..], e, i - 1);
    }
  }

  // ---------------------------------------------------------------------
  // EntityManager

  class EntityManager {
    var entities: map<int, Entity>
    var nextId: int

    /** Every id handed out so far is below `nextId`, which starts at 0. */
    ghost predicate Valid()
      reads this
    {
      0 <= nextId <= IntMax && forall id :: id in entities ==> 0 <= id < nextId
    }

    constructor()
      ensures Valid() && entities == map[] && nextId == 0
    {
      entities := map[];
      nextId := 0;
    }

    /** `createEntity`: a new entity under the next id, which goes up by one;
        the `int` counter must not overflow. */
    method CreateEntity(name: string) returns (id: int)
      requires Valid() && nextId < IntMax
      modifies this
      ensures Valid() && id == old(nextId) && nextId == id + 1
      ensures id !in old(entities)
      ensures entities.Keys == old(entities).Keys + {id}
      ensures forall k :: k in old(entities) ==> entities[k] == old(entities)[k]
      ensures fresh(entities[id]) && entities[id].name == name && entities[id].components == []
    {
      id := nextId;
      nextId := nextId + 1;
      var entity := new Entity(name);
      entities := entities[id := entity];
    }

    /** `getEntity`: the entity under `id`, or null. */
    function GetEntity(id: int): (e: Entity?)
      reads this
      ensures e != null <==> id in entities
      ensures e != null ==> e == entities[id]
    {
      if id in entities then entities[id] else null
    }

    /** `destroyEntity`: drops `id` and nothing else. */
    method DestroyEntity(id: int)
      requires Valid()
      modifies this
      ensures Valid() && nextId == old(nextId)
      ensures entities == old(entities) - {id}
    {
      if id in entities {
        entities := entities - {id};
      }
    }

    /** `clearWrong` and `clearAlsoWrong` both leave the table empty; they
        differ only in what they do to memory. */
    method Clear()
      requires Valid()
      modifies this
      ensures Valid() && entities == map[] && nextId == old(nextId)
    {
      entities := map[];
    }
  }

  /** Ids are handed out as 0, 1, 2, …: the `k`-th entity created on a new
      manager gets id `k`. */
  method CreateMany(names: seq<string>) returns (m: EntityManager, ids: seq<int>)
    requires |names| < IntMax
    ensures m.Valid() && |ids| == |names| && m.nextId == |names|
    ensures forall k :: 0 <= k < |ids| ==> ids[k] == k && ids[k] in m.entities
    ensures forall k :: k in m.entities <==> 0 <= k < |names|
  {
    m := new EntityManager();
    ids := [];
    for k := 0 to |names|
      invariant m.Valid() && m.nextId == k && |ids| == k
      invariant forall j :: 0 <= j < k ==> ids[j] == j && ids[j] in m.entities
      invariant forall j :: j in m.entities <==> 0 <= j < k
    {
      var id := m.CreateEntity(names[k]);
      ids := ids + [id];
    }
  }
}
