// SgtCore/ComponentCollection.h: a map from key to shared pointer plus a
// vector of pointers in insertion order.
//
// The map's nodes are kept as an arena `nodes`: a `ComponentPtr` is an
// iterator into the map, that is the index of a node, and stays attached to
// that node when its value is replaced. Erasing a key from the map frees its
// node (`live` becomes false); reading a freed node is undefined behaviour in
// the source, so every read here requires a live node.

module ComponentCollection {
  import opened Shared

  /** A node of `map_`: its key, the shared pointer it holds (None for a
      null pointer), and whether it is still in the map. */
  datatype Node<T> = Node(key: string, value: Option<T>, live: bool)

  /** `ComponentPtr`: empty, or an iterator to a node of the map. */
  datatype Ptr = Null | Iter(node: nat)

  predicate Distinct<X(==)>(s: seq<X>)
  {
    forall i, j :: 0 <= i < j < |s| ==> s[i] != s[j]
  }

  /** A sequence without repeats has as many elements as its set. */
  lemma {:induction false} DistinctCard<X>(s: seq<X>)
    requires Distinct(s)
    ensures |set x | x in s| == |s|
  {
    if |s| > 0 {
      var t := s[..|s| - 1];
      assert Distinct(t);
      DistinctCard(t);
      assert s[|s| - 1] !in t;
      assert (set x | x in s) == (set x | x in t) + {s[|s| - 1]} by {
        assert s == t + [s[|s| - 1]];
      }
    }
  }

  /** The keys of the vector's entries, in vector order. */
  function KeysOf<T>(nodes: seq<Node<T>>, vec: seq<nat>): seq<string>
    requires forall i :: 0 <= i < |vec| ==> vec[i] < |nodes|
  {
    if |vec| == 0 then [] else KeysOf(nodes, vec[..|vec| - 1]) + [nodes[vec[|vec| - 1]].key]
  }

  lemma {:induction false} KeysOfIndex<T>(nodes: seq<Node<T>>, vec: seq<nat>)
    requires forall i :: 0 <= i < |vec| ==> vec[i] < |nodes|
    ensures |KeysOf(nodes, vec)| == |vec|
    ensures forall i :: 0 <= i < |vec| ==> KeysOf(nodes, vec)[i] == nodes[vec[i]].key
  {
    if |vec| > 0 {
      KeysOfIndex(nodes, vec[..|vec| - 1]);
    }
  }

  /** The search of `remove` for the vector entry whose key is `key`: the
      position of the first entry whose node holds that key, or |vec|. Every
      comparison reads the node of the entry it inspects. */
  function SearchFrom<T>(nodes: seq<Node<T>>, vec: seq<nat>, key: string, i: nat): (r: nat)
    requires i <= |vec| && forall j :: 0 <= j < |vec| ==> vec[j] < |nodes|
    ensures i <= r <= |vec|
    ensures forall j :: i <= j < r ==> nodes[vec[j]].key != key
    ensures r < |vec| ==> nodes[vec[r]].key == key
    decreases |vec| - i
  {
    if i == |vec| then i
    else if nodes[vec[i]].key == key then i
    else SearchFrom(nodes, vec, key, i + 1)
  }

  /** The search reads only nodes that are still in the map. */
  predicate SearchReadsLive<T>(nodes: seq<Node<T>>, vec: seq<nat>, key: string)
    requires forall j :: 0 <= j < |vec| ==> vec[j] < |nodes|
  {
    var r := SearchFrom(nodes, vec, key, 0);
    forall j :: 0 <= j < |vec| && j <= r ==> nodes[vec[j]].live
  }

  /** The map holds live nodes under their own keys, the vector holds each
      live node once, and every live node is in the map. */
  ghost predicate WellFormed<T>(nodes: seq<Node<T>>, index: map<string, nat>, vec: seq<nat>)
  {
    (forall k :: k in index ==> index[k] < |nodes| && nodes[index[k]].key == k && nodes[index[k]].live)
    && (forall i :: 0 <= i < |vec| ==> vec[i] < |nodes| && nodes[vec[i]].live)
    && (forall n :: 0 <= n < |nodes| && nodes[n].live ==> nodes[n].key in index && index[nodes[n].key] == n)
    && (forall k :: k in index ==> index[k] in vec)
    && Distinct(vec)
  }

  /** Iteration visits every key of the map exactly once, so the vector's
      length is the number of keys in the map. */
  lemma KeysMatchIndex<T>(nodes: seq<Node<T>>, index: map<string, nat>, vec: seq<nat>)
    requires WellFormed(nodes, index, vec)
    ensures Distinct(KeysOf(nodes, vec))
    ensures forall k :: k in KeysOf(nodes, vec) <==> k in index
    ensures |vec| == |index|
  {
    KeysOfIndex(nodes, vec);
    var ks := KeysOf(nodes, vec);
    forall i, j | 0 <= i < j < |ks| ensures ks[i] != ks[j] {
      assert index[nodes[vec[i]].key] == vec[i] && index[nodes[vec[j]].key] == vec[j];
    }
    forall k | k in index ensures k in ks {
      var i :| 0 <= i < |vec| && vec[i] == index[k];
      assert ks[i] == k;
    }
    DistinctCard(ks);
    assert (set x | x in ks) == index.Keys;
  }

  /** A new key on a new node at the end of the vector keeps the structure
      well formed. */
  lemma InsertNewKeeps<T>(nodes: seq<Node<T>>, index: map<string, nat>, vec: seq<nat>, key: string, v: Option<T>)
    requires WellFormed(nodes, index, vec) && key !in index
    ensures WellFormed(nodes + [Node(key, v, true)], index[key := |nodes|], vec + [|nodes|])
  {
    var vec' := vec + [|nodes|];
    forall a, b | 0 <= a < b < |vec'| ensures vec'[a] != vec'[b] {
      if b == |vec| { assert vec'[a] == vec[a] < |nodes|; }
    }
  }

  /** Giving an existing key's node a new value keeps the structure well
      formed. */
  lemma ReplaceKeeps<T>(nodes: seq<Node<T>>, index: map<string, nat>, vec: seq<nat>, key: string, v: Option<T>)
    requires WellFormed(nodes, index, vec) && key in index
    ensures WellFormed(nodes[index[key] := Node(key, v, true)], index, vec)
  {
  }

  /** Freeing the node of the j-th entry, erasing its key and dropping the
      entry keeps the structure well formed. */
  lemma EraseKeeps<T>(nodes: seq<Node<T>>, index: map<string, nat>, vec: seq<nat>, j: nat)
    requires WellFormed(nodes, index, vec) && j < |vec|
    ensures var n := vec[j];
      WellFormed(nodes[n := nodes[n].(live := false)], index - {nodes[n].key}, vec[..j] + vec[j + 1..])
  {
    var n := vec[j];
    DropEntry(vec, j);
    forall k | k in index && k != nodes[n].key ensures index[k] in vec[..j] + vec[j + 1..] {
      assert index[k] in vec && index[k] != n;
    }
  }

  class Collection<T> {
    var nodes: seq<Node<T>>
    var index: map<string, nat>
    var vec: seq<nat>

    ghost predicate Valid()
      reads this
    {
      WellFormed(nodes, index, vec)
    }

    constructor()
      ensures Valid() && nodes == [] && index == map[] && vec == []
    {
      nodes := [];
      index := map[];
      vec := [];
    }

    /** The keys in iteration order. */
    ghost function Keys(): seq<string>
      reads this
      requires Valid()
    {
      KeysOf(nodes, vec)
    }

    /** Iteration visits every key of the map exactly once, so `size()` (the
        vector's length) is the number of keys in the map. */
    lemma KeysMatchMap()
      requires Valid()
      ensures Distinct(Keys())
      ensures forall k :: k in Keys() <==> k in index
      ensures |vec| == |index|
    {
      KeysMatchIndex(nodes, index, vec);
    }

    /** `size()`: the number of components, which is also the number of
        keys in the map. */
    function Size(): (r: nat)
      reads this
      requires Valid()
      ensures r == |vec| == |index|
    {
      KeysMatchMap();
      |vec|
    }

    /** `operator[](key)`: an iterator to the key's node, or a null pointer
        for an absent key. */
    function Find(key: string): (r: Ptr)
      reads this
      requires Valid()
      ensures r.Null? <==> key !in index
      ensures r.Iter? ==> r.node < |nodes| && nodes[r.node].live && nodes[r.node].key == key
    {
      if key in index then Iter(index[key]) else Null
    }

    /** `operator[](idx)`: the idx-th pointer in insertion order. */
    function At(idx: nat): (r: Ptr)
      reads this
      requires Valid() && idx < |vec|
      ensures r.Iter? && r.node < |nodes| && nodes[r.node].live
      ensures Find(nodes[r.node].key) == r
    {
      Iter(vec[idx])
    }

    /** `shared()`: the pointer a live iterator refers to; None for an empty
        `ComponentPtr`. */
    function Get(p: Ptr): Option<T>
      reads this
      requires p.Iter? ==> p.node < |nodes| && nodes[p.node].live
    {
      if p.Null? then None else nodes[p.node].value
    }

    /** `operator==(nullptr)`: no component behind the pointer, either
        because the pointer is empty or because the node holds null;
        `operator bool` is its negation. */
    predicate IsNull(p: Ptr)
      reads this
      requires p.Iter? ==> p.node < |nodes| && nodes[p.node].live
    {
      Get(p).None?
    }

    /** `insert`: a new key gets a new node at the end of the iteration
        order; an existing key's node is given the new value in place, so
        every pointer to it sees the new value and nothing else moves. */
    method Insert(key: string, comp: Option<T>) returns (p: Ptr)
      requires Valid()
      modifies this
      ensures Valid()
      ensures p == Find(key) && p.Iter? && Get(p) == comp
      ensures old(key in index) ==>
        vec == old(vec) && index == old(index) && nodes == old(nodes)[old(index)[key] := Node(key, comp, true)]
      ensures old(key !in index) ==>
        vec == old(vec) + [|old(nodes)|] && index == old(index)[key := |old(nodes)|]
        && nodes == old(nodes) + [Node(key, comp, true)]
    {
      if key in index {
        var n := index[key];
        ReplaceKeeps(nodes, index, vec, key, comp);
        nodes := nodes[n := Node(key, comp, true)];
        p := Iter(n);
      } else {
        var n := |nodes|;
        InsertNewKeeps(nodes, index, vec, key, comp);
        nodes := nodes + [Node(key, comp, true)];
        index := index[key := n];
        vec := vec + [n];
        p := Iter(n);
      }
    }

    /** `reserve`: the key is given a null pointer (a new key joins the
        iteration order), and the iterator to its node is returned. */
    method Reserve(key: string) returns (p: Ptr)
      requires Valid()
      modifies this
      ensures Valid()
      ensures p == Find(key) && p.Iter? && IsNull(p)
      ensures old(key in index) ==> vec == old(vec)
      ensures old(key !in index) ==> vec == old(vec) + [|old(nodes)|] && index == old(index)[key := |old(nodes)|]
    {
      p := Insert(key, None);
    }

    /** `reserve` as written: it calls `insert` but has no `return`, so the
        pointer it hands back is whatever the caller's return slot held,
        given here as `indeterminate`. */
    method ReserveAsWritten(key: string, indeterminate: Ptr) returns (p: Ptr)
      requires Valid()
      modifies this
      ensures Valid()
      ensures Find(key).Iter? && IsNull(Find(key))
      ensures old(key !in index) ==> vec == old(vec) + [|old(nodes)|] && index == old(index)[key := |old(nodes)|]
      ensures p == indeterminate
    {
      var inserted := Insert(key, None);
      p := indeterminate;
    }

    /** `emplace`: `insert` of a newly made component, returning both. */
    method Emplace(key: string, comp: T) returns (p: Ptr, made: T)
      requires Valid()
      modifies this
      ensures Valid()
      ensures made == comp && p == Find(key) && p.Iter? && Get(p) == Some(comp)
      ensures old(key in index) ==> vec == old(vec)
      ensures old(key !in index) ==> vec == old(vec) + [|old(nodes)|]
    {
      p := Insert(key, Some(comp));
      made := comp;
    }

    /** The `find_if` over the vector: the position of the key's entry. */
    method FindInVec(key: string) returns (j: nat)
      requires Valid() && key in index
      ensures j < |vec| && vec[j] == index[key]
      ensures j == SearchFrom(nodes, vec, key, 0)
    {
      j := 0;
      while j < |vec| && nodes[vec[j]].key != key
        invariant 0 <= j <= |vec|
        invariant SearchFrom(nodes, vec, key, 0) == SearchFrom(nodes, vec, key, j)
        decreases |vec| - j
      {
        j := j + 1;
      }
      assert index[key] in vec;
      assert index[nodes[vec[j]].key] == vec[j];
    }

    /** `remove`: the key leaves the map and the vector, the others keep
        their order, and the old value is returned; an absent key changes
        nothing and gives null. The vector entry is found before the map node
        is freed (see the finding about the order of these steps). */
    method Remove(key: string) returns (result: Option<T>)
      requires Valid()
      modifies this
      ensures Valid()
      ensures old(key !in index) ==> result == None && vec == old(vec) && index == old(index) && nodes == old(nodes)
      ensures old(key in index) ==>
        && result == old(nodes[index[key]].value)
        && index == old(index) - {key}
        && nodes == old(nodes)[old(index)[key] := old(nodes)[old(index)[key]].(live := false)]
        && exists j :: 0 <= j < |old(vec)| && old(vec)[j] == old(index)[key] && vec == old(vec)[..j] + old(vec)[j + 1..]
    {
      result := None;
      if key in index {
        var n := index[key];
        result := nodes[n].value;
        var j := FindInVec(key);
        EraseKeeps(nodes, index, vec, j);
        nodes := nodes[n := nodes[n].(live := false)];
        index := index - {key};
        vec := vec[..j] + vec[j + 1..];
      }
    }
  }

  /** Dropping the j-th entry of a sequence without repeats leaves exactly
      the other entries, still without repeats. */
  lemma DropEntry(vec: seq<nat>, j: nat)
    requires Distinct(vec) && j < |vec|
    ensures Distinct(vec[..j] + vec[j + 1..])
    ensures forall x :: x in vec[..j] + vec[j + 1..] <==> x in vec && x != vec[j]
  {
    var vec' := vec[..j] + vec[j + 1..];
    forall x | x in vec && x != vec[j] ensures x in vec' {
      var i :| 0 <= i < |vec| && vec[i] == x;
      if i < j { assert vec'[i] == vec[i]; } else { assert vec'[i - 1] == vec[i]; }
    }
    forall i | 0 <= i < |vec'| ensures vec'[i] != vec[j] {
      if i < j { assert vec'[i] == vec[i]; } else { assert vec'[i] == vec[i + 1]; }
    }
    forall a, b | 0 <= a < b < |vec'| ensures vec'[a] != vec'[b] {
      var a0 := if a < j then a else a + 1;
      var b0 := if b < j then b else b + 1;
      assert vec'[a] == vec[a0] && vec'[b] == vec[b0];
    }
  }

  /** In the source, `remove` erases the map node first and then searches
      the vector with `p.key()`, which reads the node each pointer refers
      to; the entry it is looking for refers to the node just erased, so the
      search always reads a freed node. Searching first reads only nodes
      still in the map. */
  lemma RemoveOrderAsWritten<T>(c: Collection<T>, key: string)
    requires c.Valid() && key in c.index
    ensures var n := c.index[key];
      var erased := c.nodes[n := c.nodes[n].(live := false)];
      && SearchReadsLive(c.nodes, c.vec, key)
      && !SearchReadsLive(erased, c.vec, key)
  {
    var n := c.index[key];
    var erased := c.nodes[n := c.nodes[n].(live := false)];
    assert n in c.vec;
    var i :| 0 <= i < |c.vec| && c.vec[i] == n;
    var r := SearchFrom(erased, c.vec, key, 0);
    assert r <= i;
    assert c.nodes[c.vec[r]].key == key;
    assert c.index[c.nodes[c.vec[r]].key] == c.vec[r];
    assert !erased[c.vec[r]].live;
  }

  /** Reserving a key in an empty collection: the result of `reserve` as
      written need not be the reserved key's iterator, while the corrected
      `reserve` returns it. */
  method ReserveResultExample() returns (asWritten: Ptr, corrected: Ptr)
    ensures asWritten == Null && corrected == Iter(0)
  {
    var c := new Collection<int>();
    asWritten := c.ReserveAsWritten("bus_1", Null);
    assert c.Find("bus_1") == Iter(0) != asWritten;
    var d := new Collection<int>();
    corrected := d.Reserve("bus_1");
  }

  /** A default pointer is null and false. */
  lemma DefaultPtrIsNull<T>(c: Collection<T>)
    ensures c.IsNull(Null) && c.Get(Null) == None
  {
  }
}
