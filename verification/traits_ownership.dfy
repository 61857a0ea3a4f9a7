/**
 Who frees the tangency cache and the intersection map. A default-constructed
 traits object allocates both and owns them; a copy-constructed or assigned-to
 object points at the same structures and never owns them; the destructor
 frees them only when the object owns them. The heap records the live traits
 objects, which caches and maps are allocated and not yet freed, and the next
 fresh address.
 */
module TraitsOwnership {

  type ObjId = nat
  type Ref = nat

  /** The data members of one traits object: `_cache`, `_inter_map`, `_owner`. */
  datatype Traits = Traits(cache: Ref, interMap: Ref, owner: bool)

  datatype Heap = Heap(objects: map<ObjId, Traits>, liveCaches: set<Ref>, liveMaps: set<Ref>, nextRef: Ref)

  /** The heap discipline the ownership flag is meant to keep: every address
      in use was allocated, every owner's structures are still allocated, and
      no two objects own the same cache or the same map. */
  predicate Good(h: Heap)
  {
    (forall a :: a in h.objects ==> h.objects[a].cache < h.nextRef && h.objects[a].interMap < h.nextRef) &&
    (forall r :: r in h.liveCaches ==> r < h.nextRef) &&
    (forall r :: r in h.liveMaps ==> r < h.nextRef) &&
    (forall a :: a in h.objects && h.objects[a].owner ==>
       h.objects[a].cache in h.liveCaches && h.objects[a].interMap in h.liveMaps) &&
    (forall a, b :: a in h.objects && b in h.objects && a != b && h.objects[a].owner && h.objects[b].owner ==>
       h.objects[a].cache != h.objects[b].cache && h.objects[a].interMap != h.objects[b].interMap)
  }

  /** No object refers to cache `r`. */
  predicate Unreferenced(h: Heap, r: Ref)
  {
    forall a :: a in h.objects ==> h.objects[a].cache != r
  }

  /** No object refers to intersection map `r`. */
  predicate UnreferencedMap(h: Heap, r: Ref)
  {
    forall a :: a in h.objects ==> h.objects[a].interMap != r
  }

  /** The other objects are untouched. */
  predicate OthersUnchanged(h: Heap, h': Heap, id: ObjId)
  {
    forall a :: a in h.objects && a != id ==> a in h'.objects && h'.objects[a] == h.objects[a]
  }

  /** The default constructor: allocates a fresh cache and map and owns them. */
  function Construct(h: Heap, id: ObjId): (h': Heap)
    requires id !in h.objects
    ensures h'.objects.Keys == h.objects.Keys + {id}
    ensures OthersUnchanged(h, h', id)
    ensures var t := h'.objects[id];
      t.owner && t.cache in h'.liveCaches && t.interMap in h'.liveMaps
    ensures h.liveCaches <= h'.liveCaches && h.liveMaps <= h'.liveMaps
    ensures Good(h) ==> Good(h') && Unreferenced(h, h'.objects[id].cache) && h'.objects[id].cache !in h.liveCaches
    ensures Good(h) ==> UnreferencedMap(h, h'.objects[id].interMap) && h'.objects[id].interMap !in h.liveMaps
  {
    var r := h.nextRef;
    Heap(h.objects[id := Traits(r, r, true)], h.liveCaches + {r}, h.liveMaps + {r}, r + 1)
  }

  /** The copy constructor: shares the source's cache and map, never owns. */
  function CopyConstruct(h: Heap, id: ObjId, src: ObjId): (h': Heap)
    requires id !in h.objects && src in h.objects
    ensures h'.objects.Keys == h.objects.Keys + {id}
    ensures OthersUnchanged(h, h', id)
    ensures var t := h'.objects[id];
      !t.owner && t.cache == h.objects[src].cache && t.interMap == h.objects[src].interMap
    ensures h'.liveCaches == h.liveCaches && h'.liveMaps == h.liveMaps
    ensures Good(h) ==> Good(h')
  {
    var s := h.objects[src];
    h.(objects := h.objects[id := Traits(s.cache, s.interMap, false)])
  }

  /** The assignment operator: assigning an object to itself changes nothing;
      otherwise the target shares the source's cache and map and stops owning,
      and nothing is freed. */
  function Assign(h: Heap, dst: ObjId, src: ObjId): (h': Heap)
    requires dst in h.objects && src in h.objects
    ensures dst == src ==> h' == h
    ensures h'.objects.Keys == h.objects.Keys
    ensures OthersUnchanged(h, h', dst)
    ensures dst != src ==>
      var t := h'.objects[dst];
      !t.owner && t.cache == h.objects[src].cache && t.interMap == h.objects[src].interMap
    ensures h'.liveCaches == h.liveCaches && h'.liveMaps == h.liveMaps
    ensures Good(h) ==> Good(h')
  {
    if dst == src then h
    else
      var s := h.objects[src];
      h.(objects := h.objects[dst := Traits(s.cache, s.interMap, false)])
  }

  /** The destructor: removes the object and frees its cache and map exactly
      when it owns them; an owner only ever frees structures still allocated. */
  function Destroy(h: Heap, id: ObjId): (h': Heap)
    requires id in h.objects
    ensures h'.objects.Keys == h.objects.Keys - {id}
    ensures OthersUnchanged(h, h', id)
    ensures var t := h.objects[id];
      (t.owner ==> h'.liveCaches == h.liveCaches - {t.cache} && h'.liveMaps == h.liveMaps - {t.interMap}) &&
      (!t.owner ==> h'.liveCaches == h.liveCaches && h'.liveMaps == h.liveMaps)
    ensures Good(h) && h.objects[id].owner ==>
      h.objects[id].cache in h.liveCaches && h.objects[id].interMap in h.liveMaps
    ensures Good(h) ==> Good(h')
  {
    var t := h.objects[id];
    var objects' := h.objects - {id};
    if t.owner then Heap(objects', h.liveCaches - {t.cache}, h.liveMaps - {t.interMap}, h.nextRef)
    else h.(objects := objects')
  }

  /** Destroying the owner while a copy of it is alive leaves the copy pointing
      at a freed cache and map: the root must outlive its copies. */
  lemma CopyDanglesAfterOwnerDestroyed(h: Heap, root: ObjId, copy: ObjId)
    requires Good(h) && root in h.objects && copy !in h.objects && h.objects[root].owner
    ensures var h2 := Destroy(CopyConstruct(h, copy, root), root);
      copy in h2.objects &&
      h2.objects[copy].cache !in h2.liveCaches && h2.objects[copy].interMap !in h2.liveMaps
  {
  }

  /** Assigning over the only reference to an owned cache gives up ownership
      without freeing it: the cache stays allocated, no object refers to it,
      and so no later destructor frees it. */
  lemma AssignOverOwnerLeaks(h: Heap, dst: ObjId, src: ObjId)
    requires Good(h) && dst in h.objects && src in h.objects && dst != src
    requires h.objects[dst].owner
    requires forall a :: a in h.objects && a != dst ==> h.objects[a].cache != h.objects[dst].cache
    ensures var h' := Assign(h, dst, src);
      h.objects[dst].cache in h'.liveCaches && Unreferenced(h', h.objects[dst].cache)
  {
  }
}
