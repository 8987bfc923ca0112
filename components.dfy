// SgtCore/Components.h: components keyed by their own id, as a map from id
// to shared pointer plus a vector, in insertion order, of `ComponentPtr`s
// that point at the map's shared pointers.
//
// As in ComponentCollection, the map's nodes form an arena: a
// `ComponentPtr` holds the index of the node whose shared pointer it points
// at, and every read through it requires that node to be live.

module Components {
  import opened Shared
  import opened ComponentCollection

  /** `ConstComponentPtr` / `ComponentPtr`: no target (`pp_` null), or the
      node whose shared pointer it points at. */
  datatype CompPtr = NoTarget | Target(node: nat)

  class MutableComponents<T> {
    /** `id()` of a component. */
    const idOf: T -> string
    var nodes: seq<Node<T>>
    var index: map<string, nat>
    var vec: seq<nat>

    /** Well formed as a ComponentCollection, and each live node holds a
        component filed under its own id. */
    ghost predicate Valid()
      reads this
    {
      WellFormed(nodes, index, vec)
      && forall n :: 0 <= n < |nodes| && nodes[n].live ==>
           nodes[n].value.Some? && idOf(nodes[n].value.value) == nodes[n].key
    }

    constructor(idOf: T -> string)
      ensures Valid() && this.idOf == idOf && nodes == [] && index == map[] && vec == []
    {
      this.idOf := idOf;
      nodes := [];
      index := map[];
      vec := [];
    }

    /** `size()`: the number of components, which is also the number of
        ids in the map. */
    function Size(): (r: nat)
      reads this
      requires Valid()
      ensures r == |vec| == |index|
    {
      SizeMatchesMap();
      |vec|
    }

    lemma SizeMatchesMap()
      requires Valid()
      ensures |vec| == |index|
    {
      KeysMatchIndex(nodes, index, vec);
    }

    /** `operator[](id)`: `map_.at(id)`, which throws for an unknown id. */
    function Lookup(id: string): (r: Result<CompPtr>)
      reads this
      requires Valid()
      ensures r.Ok? <==> id in index
      ensures r.Ok? ==> r.value.Target? && r.value.node < |nodes| && nodes[r.value.node].live
                        && idOf(Get(r.value)) == id
    {
      if id in index then Ok(Target(index[id])) else Err("map::at: unknown component id " + id)
    }

    /** `operator[](idx)`. */
    function At(idx: nat): (r: CompPtr)
      reads this
      requires Valid() && idx < |vec|
      ensures r.Target? && r.node < |nodes| && nodes[r.node].live
      ensures Lookup(idOf(Get(r))) == Ok(r)
    {
      Target(vec[idx])
    }

    /** The component a pointer with a live target points at. */
    function Get(p: CompPtr): T
      reads this
      requires Valid() && p.Target? && p.node < |nodes| && nodes[p.node].live
    {
      nodes[p.node].value.value
    }

    /** `operator==(nullptr)`: `pp_` is null or points at a null shared
        pointer; `operator bool` and `operator!=(nullptr)` are its negation. */
    predicate IsNull(p: CompPtr)
      reads this
      requires p.Target? ==> p.node < |nodes| && nodes[p.node].live
    {
      p.NoTarget? || nodes[p.node].value.None?
    }

    /** In a well-formed collection a pointer is null exactly when it has no
        target: the map never holds a null component. */
    lemma NullIffNoTarget(p: CompPtr)
      requires Valid() && (p.Target? ==> p.node < |nodes| && nodes[p.node].live)
      ensures IsNull(p) <==> p.NoTarget?
    {
    }

    /** `insert`: the component is filed under its own id. A new id gets a
        new node at the end of the iteration order; an existing id's node
        takes the new component in place, so pointers to it see the new
        component and nothing else moves. */
    method Insert(comp: T) returns (p: CompPtr)
      requires Valid()
      modifies this
      ensures Valid()
      ensures Lookup(idOf(comp)) == Ok(p) && Get(p) == comp
      ensures var id := idOf(comp);
        old(id in index) ==>
          vec == old(vec) && index == old(index) && nodes == old(nodes)[old(index)[id] := Node(id, Some(comp), true)]
      ensures var id := idOf(comp);
        old(id !in index) ==>
          vec == old(vec) + [|old(nodes)|] && index == old(index)[id := |old(nodes)|]
          && nodes == old(nodes) + [Node(id, Some(comp), true)]
    {
      var id := idOf(comp);
      if id in index {
        var n := index[id];
        ReplaceKeeps(nodes, index, vec, id, Some(comp));
        nodes := nodes[n := Node(id, Some(comp), true)];
        p := Target(n);
      } else {
        var n := |nodes|;
        InsertNewKeeps(nodes, index, vec, id, Some(comp));
        nodes := nodes + [Node(id, Some(comp), true)];
        index := index[id := n];
        vec := vec + [n];
        p := Target(n);
      }
    }

    /** `emplace`: `insert` of a newly made component. */
    method Emplace(comp: T) returns (p: CompPtr)
      requires Valid()
      modifies this
      ensures Valid()
      ensures Lookup(idOf(comp)) == Ok(p) && Get(p) == comp
      ensures old(idOf(comp) in index) ==> vec == old(vec)
      ensures old(idOf(comp) !in index) ==> vec == old(vec) + [|old(nodes)|]
    {
      p := Insert(comp);
    }

    /** The `find_if` over the vector for the component with this id. */
    method FindInVec(id: string) returns (j: nat)
      requires Valid() && id in index
      ensures j < |vec| && vec[j] == index[id]
      ensures j == SearchFrom(nodes, vec, id, 0)
    {
      j := 0;
      while j < |vec| && idOf(nodes[vec[j]].value.value) != id
        invariant 0 <= j <= |vec|
        invariant SearchFrom(nodes, vec, id, 0) == SearchFrom(nodes, vec, id, j)
        decreases |vec| - j
      {
        j := j + 1;
      }
      assert index[id] in vec;
      assert index[nodes[vec[j]].key] == vec[j];
    }

    /** `remove`: the component leaves the map and the vector, the others
        keep their order, and the removed component is returned; an unknown
        id changes nothing and gives null. The vector entry is found before
        the map node is freed. */
    method Remove(id: string) returns (result: Option<T>)
      requires Valid()
      modifies this
      ensures Valid()
      ensures old(id !in index) ==> result == None && vec == old(vec) && index == old(index) && nodes == old(nodes)
      ensures old(id in index) ==>
        && result.Some? && idOf(result.value) == id
        && result == old(nodes[index[id]].value)
        && index == old(index) - {id}
        && nodes == old(nodes)[old(index)[id] := old(nodes)[old(index)[id]].(live := false)]
        && exists j :: 0 <= j < |old(vec)| && old(vec)[j] == old(index)[id] && vec == old(vec)[..j] + old(vec)[j + 1..]
    {
      result := None;
      if id in index {
        var n := index[id];
        result := nodes[n].value;
        var j := FindInVec(id);
        EraseKeepsIds(j);
        nodes := nodes[n := nodes[n].(live := false)];
        index := index - {id};
        vec := vec[..j] + vec[j + 1..];
      }
    }

    /** Erasing the j-th entry keeps the collection valid. */
    lemma EraseKeepsIds(j: nat)
      requires Valid() && j < |vec|
      ensures var n := vec[j];
        var nodes' := nodes[n := nodes[n].(live := false)];
        && WellFormed(nodes', index - {nodes[n].key}, vec[..j] + vec[j + 1..])
        && forall m :: 0 <= m < |nodes'| && nodes'[m].live ==>
             nodes'[m].value.Some? && idOf(nodes'[m].value.value) == nodes'[m].key
    {
      EraseKeeps(nodes, index, vec, j);
    }
  }

  /** In the source, `remove` erases the map node first and then searches
      the vector with `p->id()`, which reads through the shared pointer in
      the node each entry points at; the entry it looks for points into the
      node just erased. Searching before erasing reads only live nodes. */
  lemma RemoveOrderAsWritten<T>(c: MutableComponents<T>, id: string)
    requires c.Valid() && id in c.index
    ensures var n := c.index[id];
      var erased := c.nodes[n := c.nodes[n].(live := false)];
      && SearchReadsLive(c.nodes, c.vec, id)
      && !SearchReadsLive(erased, c.vec, id)
  {
    var n := c.index[id];
    var erased := c.nodes[n := c.nodes[n].(live := false)];
    assert n in c.vec;
    var i :| 0 <= i < |c.vec| && c.vec[i] == n;
    var r := SearchFrom(erased, c.vec, id, 0);
    assert r <= i;
    assert c.index[c.nodes[c.vec[r]].key] == c.vec[r];
    assert !erased[c.vec[r]].live;
  }
}
