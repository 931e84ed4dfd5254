/** The sender's local tensor copies: small tensors share buffers through a bump allocator. */
module SmallTensors {
  import opened Shards

  /** A tensor to copy: its key, element count and element size. */
  datatype Request = Request(key: ShardedKey, elements: nat, itemSize: nat)

  /** A copy with memory of its own, or a slice of a shared buffer (counted from the first one): from
      element `first` on, when the buffer is seen as an array of elements of this size. */
  datatype Copy = Own(elements: nat, itemSize: nat) | Small(buffer: nat, first: nat, elements: nat, itemSize: nat)

  /** The bytes of the buffer that a slice starts at and ends in front of. */
  function StartByte(p: Copy): nat
    requires p.Small?
  {
    p.first * p.itemSize
  }

  function EndByte(p: Copy): nat
    requires p.Small?
  {
    (p.first + p.elements) * p.itemSize
  }

  /** `limit`: small_tensor_size_; `capacity`: small_tensor_compact_cache_size_; `buffers`: how many
      buffers were filled before the current one; `offset`: where the current one is free. */
  datatype CopyCache = CopyCache(limit: nat, capacity: nat, buffers: nat, offset: nat, copies: map<ShardedKey, Copy>)

  function Bytes(q: Request): nat { q.elements * q.itemSize }

  /** AlignStorageOffset. */
  function Align(offset: nat, itemSize: nat): nat
    requires itemSize > 0
  {
    if offset % itemSize == 0 then offset else (offset + (itemSize - 1)) / itemSize * itemSize
  }

  /** The next aligned position: a multiple of the element size, at most one element away. */
  lemma AlignIsNext(offset: nat, itemSize: nat)
    requires itemSize > 0
    ensures Align(offset, itemSize) % itemSize == 0
    ensures offset <= Align(offset, itemSize) < offset + itemSize
  {
    if offset % itemSize != 0 {
      var q, m := (offset + itemSize - 1) / itemSize, (offset + itemSize - 1) % itemSize;
      assert q * itemSize + m == offset + itemSize - 1;
      MultipleRemainder(q, itemSize);
    }
  }

  lemma MultipleRemainder(q: nat, d: nat)
    requires d > 0
    ensures q * d % d == 0
  {
    var p, r := q * d / d, q * d % d;
    assert p * d + r == q * d + 0;
    Boxes.QuotientUnique(p, r, q, 0, d);
  }

  /** Take memory at the aligned position, in a new buffer, or apart from the buffers. */
  function AllocateAt(c: CopyCache, q: Request, aligned: nat): (CopyCache, Copy)
    requires q.itemSize > 0
  {
    if Bytes(q) > c.limit then (c, Own(q.elements, q.itemSize))
    else if aligned + Bytes(q) > c.capacity then
      (c.(buffers := c.buffers + 1, offset := Bytes(q)), Small(c.buffers + 1, 0, q.elements, q.itemSize))
    else
      (c.(offset := aligned + Bytes(q)), Small(c.buffers, aligned / q.itemSize, q.elements, q.itemSize))
  }

  /** Take the memory for a new copy; the mapping is not changed yet. */
  function Allocate(c: CopyCache, q: Request): (CopyCache, Copy)
    requires q.itemSize > 0
  {
    AllocateAt(c, q, Align(c.offset, q.itemSize))
  }

  function Store(c: CopyCache, key: ShardedKey, copy: Copy): CopyCache {
    c.(copies := c.copies[key := copy])
  }

  function GetOrCreate(c: CopyCache, q: Request): CopyCache
    requires q.itemSize > 0
  {
    if q.key in c.copies then c else
      var (c', copy) := Allocate(c, q);
      Store(c', q.key, copy)
  }

  // ---------- what holds of the copies ----------

  /** The copy has the shape of the request, and shares a buffer exactly when it is small. */
  predicate MadeFor(p: Copy, q: Request, limit: nat) {
    p.elements == q.elements && p.itemSize == q.itemSize && (p.Small? <==> q.elements * q.itemSize <= limit)
  }

  ghost predicate Placed(c: CopyCache, p: Copy) {
    p.Small? ==>
      && p.itemSize > 0 && EndByte(p) <= c.capacity
      && (p.buffer < c.buffers || (p.buffer == c.buffers && EndByte(p) <= c.offset))
  }

  /** Two copies do not share a byte. */
  predicate Separate(p: Copy, q: Copy) {
    p.Small? && q.Small? && p.buffer == q.buffer ==> EndByte(p) <= StartByte(q) || EndByte(q) <= StartByte(p)
  }

  ghost predicate Inv(c: CopyCache) {
    && c.limit <= c.capacity && c.offset <= c.capacity
    && (forall k | k in c.copies :: Placed(c, c.copies[k]))
    && (forall j, k | j in c.copies && k in c.copies && j != k :: Separate(c.copies[j], c.copies[k]))
  }

  /** The position comes behind everything taken before: in the current buffer, or in a new one. */
  predicate Behind(c: CopyCache, buffer: nat, from: nat) {
    (buffer == c.buffers && c.offset <= from) || buffer == c.buffers + 1
  }

  lemma OneBehind(c: CopyCache, c': CopyCache, p: Copy, copy: Copy)
    requires Placed(c, p) && c'.capacity == c.capacity
    requires copy.Small? && Behind(c, copy.buffer, StartByte(copy)) && c'.buffers == copy.buffer && StartByte(copy) <= c'.offset
    ensures Placed(c', p) && Separate(p, copy)
  {
  }

  /** Memory behind everything taken before. */
  lemma TakenBehind(c: CopyCache, c': CopyCache, copy: Copy)
    requires Inv(c) && c'.limit == c.limit && c'.capacity == c.capacity && c'.copies == c.copies
    requires copy.Small? && Behind(c, copy.buffer, StartByte(copy))
    requires c'.buffers == copy.buffer && StartByte(copy) <= c'.offset <= c'.capacity
    ensures Inv(c') && forall k | k in c.copies :: Separate(c.copies[k], copy)
  {
    forall k | k in c.copies
      ensures Placed(c', c.copies[k]) && Separate(c.copies[k], copy)
    {
      OneBehind(c, c', c.copies[k], copy);
    }
    assert forall j, k | j in c'.copies && k in c'.copies && j != k :: Separate(c'.copies[j], c'.copies[k]);
  }

  /** Where the bytes of a slice at an aligned position are. */
  lemma SliceBytes(aligned: nat, elements: nat, itemSize: nat)
    requires itemSize > 0 && aligned % itemSize == 0
    ensures aligned / itemSize * itemSize == aligned
    ensures (aligned / itemSize + elements) * itemSize == aligned + elements * itemSize
  {
  }

  lemma AllocateAtFits(c: CopyCache, q: Request, aligned: nat)
    requires Inv(c) && q.itemSize > 0 && aligned % q.itemSize == 0 && c.offset <= aligned
    ensures var (c', copy) := AllocateAt(c, q, aligned);
            && Inv(c') && Placed(c', copy) && c'.copies == c.copies && MadeFor(copy, q, c.limit)
            && forall k | k in c.copies :: Separate(c.copies[k], copy)
  {
    if Bytes(q) <= c.limit {
      SliceBytes(aligned, q.elements, q.itemSize);
      TakenBehind(c, AllocateAt(c, q, aligned).0, AllocateAt(c, q, aligned).1);
    }
  }

  /** Memory taken for a copy lies behind everything taken before. */
  lemma AllocateFits(c: CopyCache, q: Request)
    requires Inv(c) && q.itemSize > 0
    ensures Inv(Allocate(c, q).0) && Placed(Allocate(c, q).0, Allocate(c, q).1) && MadeFor(Allocate(c, q).1, q, c.limit)
    ensures forall k | k in c.copies :: Separate(c.copies[k], Allocate(c, q).1)
    ensures Allocate(c, q).0.copies == c.copies
    ensures Allocate(c, q).0.limit == c.limit && Allocate(c, q).0.capacity == c.capacity
  {
    AlignIsNext(c.offset, q.itemSize);
    AllocateAtFits(c, q, Align(c.offset, q.itemSize));
  }

  lemma StoreFits(c: CopyCache, key: ShardedKey, copy: Copy)
    requires Inv(c) && key !in c.copies && Placed(c, copy)
    requires forall k | k in c.copies :: Separate(c.copies[k], copy)
    ensures Inv(Store(c, key, copy))
  {
  }

  /** Every request keeps the copies aligned, inside their buffer and apart, and changes no copy. */
  lemma RequestKeeps(c: CopyCache, q: Request)
    requires Inv(c) && q.itemSize > 0
    ensures Inv(GetOrCreate(c, q)) && q.key in GetOrCreate(c, q).copies
    ensures forall k | k in c.copies :: k in GetOrCreate(c, q).copies && GetOrCreate(c, q).copies[k] == c.copies[k]
    ensures forall k | k in GetOrCreate(c, q).copies :: k in c.copies || k == q.key
    ensures q.key !in c.copies ==> MadeFor(GetOrCreate(c, q).copies[q.key], q, c.limit)
    ensures GetOrCreate(c, q).limit == c.limit && GetOrCreate(c, q).capacity == c.capacity
  {
    if q.key !in c.copies {
      AllocateFits(c, q);
      StoreFits(Allocate(c, q).0, q.key, Allocate(c, q).1);
    }
  }

  /** A slice whose bytes lie inside the buffer is inside the array of elements it is cut from. */
  lemma SliceInBounds(capacity: nat, p: Copy)
    requires p.Small? && p.itemSize > 0 && EndByte(p) <= capacity
    ensures p.first + p.elements <= capacity / p.itemSize
    ensures EndByte(p) - StartByte(p) == p.elements * p.itemSize
  {
    var all, rest := capacity / p.itemSize, capacity % p.itemSize;
    assert all * p.itemSize + rest == capacity;
    if all + 1 <= p.first + p.elements {
      assert (all + 1) * p.itemSize == all * p.itemSize + p.itemSize;
      Boxes.MulMono(all + 1, p.first + p.elements, p.itemSize);
    }
  }

  // ---------- over whole sequences of requests ----------

  predicate Proper(requests: seq<Request>) {
    forall i | 0 <= i < |requests| :: requests[i].itemSize > 0
  }

  function Serve(c: CopyCache, requests: seq<Request>): CopyCache
    requires Proper(requests)
  {
    if requests == [] then c else
      GetOrCreate(Serve(c, requests[..|requests| - 1]), requests[|requests| - 1])
  }

  function Fresh(limit: nat, capacity: nat): CopyCache {
    CopyCache(limit, capacity, 0, 0, map[])
  }

  /** The copies after these requests. */
  function Copies(limit: nat, capacity: nat, requests: seq<Request>): map<ShardedKey, Copy>
    requires Proper(requests)
  {
    Serve(Fresh(limit, capacity), requests).copies
  }

  lemma {:induction false} ServeInv(limit: nat, capacity: nat, requests: seq<Request>)
    requires limit <= capacity && Proper(requests)
    ensures Inv(Serve(Fresh(limit, capacity), requests))
    ensures Serve(Fresh(limit, capacity), requests).capacity == capacity
    ensures Serve(Fresh(limit, capacity), requests).limit == limit
  {
    if requests != [] {
      ServeInv(limit, capacity, requests[..|requests| - 1]);
      RequestKeeps(Serve(Fresh(limit, capacity), requests[..|requests| - 1]), requests[|requests| - 1]);
    }
  }

  /** Request i is the first for this key. */
  predicate FirstFor(requests: seq<Request>, i: int, k: ShardedKey) {
    0 <= i < |requests| && requests[i].key == k && forall j | 0 <= j < i :: requests[j].key != k
  }

  /** There is a copy for every key that was asked for and for no other. It is made for the first request
      with that key: it has its elements and their size, and shares a buffer exactly if they take at most
      the small limit. */
  lemma {:induction false} CopyIsForFirst(limit: nat, capacity: nat, requests: seq<Request>, k: ShardedKey)
    requires limit <= capacity && Proper(requests)
    ensures k in Copies(limit, capacity, requests) <==> exists i :: FirstFor(requests, i, k)
    ensures forall i | FirstFor(requests, i, k) ::
      k in Copies(limit, capacity, requests) && MadeFor(Copies(limit, capacity, requests)[k], requests[i], limit)
  {
    if requests != [] {
      var front, last := requests[..|requests| - 1], requests[|requests| - 1];
      CopyIsForFirst(limit, capacity, front, k);
      ServeInv(limit, capacity, front);
      RequestKeeps(Serve(Fresh(limit, capacity), front), last);
      FirstForNext(requests, k);
    }
  }

  lemma FirstForNext(requests: seq<Request>, k: ShardedKey)
    requires requests != []
    ensures var front, n := requests[..|requests| - 1], |requests| - 1;
            && (forall i | FirstFor(front, i, k) :: FirstFor(requests, i, k))
            && (forall i | FirstFor(requests, i, k) :: FirstFor(front, i, k) || (i == n && forall j :: !FirstFor(front, j, k)))
            && (requests[n].key == k ==> FirstFor(requests, n, k) || exists i :: FirstFor(front, i, k))
  {
    var front, n := requests[..|requests| - 1], |requests| - 1;
    forall i | FirstFor(front, i, k)
      ensures FirstFor(requests, i, k)
    {
      assert forall j | 0 <= j < i :: front[j] == requests[j];
    }
    forall i | FirstFor(requests, i, k)
      ensures FirstFor(front, i, k) || (i == n && forall j :: !FirstFor(front, j, k))
    {
      assert forall j | 0 <= j < |front| :: front[j] == requests[j];
    }
    if requests[n].key == k && !FirstFor(requests, n, k) {
      var j :| 0 <= j < n && requests[j].key == k;
      var i := FirstExists(front, j, k);
    }
  }

  lemma {:induction false} FirstExists(requests: seq<Request>, j: nat, k: ShardedKey) returns (i: int)
    requires j < |requests| && requests[j].key == k
    ensures FirstFor(requests, i, k)
    decreases j
  {
    i := j;
    if m :| 0 <= m < j && requests[m].key == k {
      i := FirstExists(requests, m, k);
    }
  }

  /** Request i is the first for its key and asks for a small tensor. */
  predicate MakesSmall(requests: seq<Request>, i: int, limit: nat) {
    && 0 <= i < |requests| && FirstFor(requests, i, requests[i].key)
    && requests[i].elements * requests[i].itemSize <= limit
  }

  /** The slice that request i got. */
  lemma CopyOf(limit: nat, capacity: nat, requests: seq<Request>, i: int) returns (p: Copy)
    requires limit <= capacity && Proper(requests) && MakesSmall(requests, i, limit)
    ensures requests[i].key in Copies(limit, capacity, requests) && p == Copies(limit, capacity, requests)[requests[i].key]
    ensures p.Small? && p.elements == requests[i].elements && p.itemSize == requests[i].itemSize
    ensures Inv(Serve(Fresh(limit, capacity), requests)) && EndByte(p) <= capacity
  {
    ServeInv(limit, capacity, requests);
    CopyIsForFirst(limit, capacity, requests, requests[i].key);
    p := Copies(limit, capacity, requests)[requests[i].key];
    assert Placed(Serve(Fresh(limit, capacity), requests), p);
  }

  /** Allocator safety, with the constructor's guard that the small limit is at most a buffer. After any
      requests, a small copy has as many elements as were asked for, all inside its buffer. */
  lemma CopyIsInside(limit: nat, capacity: nat, requests: seq<Request>, i: int)
    requires limit <= capacity && Proper(requests) && MakesSmall(requests, i, limit)
    ensures requests[i].key in Copies(limit, capacity, requests)
    ensures var p, q := Copies(limit, capacity, requests)[requests[i].key], requests[i];
            && p.Small? && p.elements == q.elements && p.itemSize == q.itemSize
            && (p.first + q.elements) * q.itemSize <= capacity && p.first + q.elements <= capacity / q.itemSize
  {
    var p := CopyOf(limit, capacity, requests, i);
    SliceInBounds(capacity, p);
  }

  /** And the elements of two small copies share no byte. */
  lemma CopiesAreSafe(limit: nat, capacity: nat, requests: seq<Request>, i: int, j: int)
    requires limit <= capacity && Proper(requests)
    requires MakesSmall(requests, i, limit) && MakesSmall(requests, j, limit) && i != j
    ensures var copies, a, b := Copies(limit, capacity, requests), requests[i], requests[j];
            && a.key in copies && b.key in copies && copies[a.key].Small? && copies[b.key].Small?
            && var p, q := copies[a.key], copies[b.key];
            p.buffer == q.buffer ==>
              (p.first + a.elements) * a.itemSize <= q.first * b.itemSize || (q.first + b.elements) * b.itemSize <= p.first * a.itemSize
  {
    var p := CopyOf(limit, capacity, requests, i);
    var q := CopyOf(limit, capacity, requests, j);
    assert Separate(p, q);
  }

  // ---------- no room is wasted ----------

  /** Everything in this buffer ends at `end` or before, and something ends there unless it is empty. */
  ghost predicate EndsAt(copies: map<ShardedKey, Copy>, buffer: nat, end: nat) {
    && (forall k | k in copies && copies[k].Small? && copies[k].buffer == buffer :: EndByte(copies[k]) <= end)
    && (end > 0 ==> exists k :: k in copies && copies[k].Small? && copies[k].buffer == buffer && EndByte(copies[k]) == end)
  }

  /** This buffer is the last one in use. */
  ghost predicate LastUsed(copies: map<ShardedKey, Copy>, buffer: nat) {
    && (forall k | k in copies && copies[k].Small? :: copies[k].buffer <= buffer)
    && (buffer > 0 ==> exists k :: k in copies && copies[k].Small? && copies[k].buffer == buffer)
  }

  ghost predicate Tight(c: CopyCache) {
    LastUsed(c.copies, c.buffers) && EndsAt(c.copies, c.buffers, c.offset)
  }

  /** A slice takes the first aligned place behind everything in the last buffer, or the start of a new
      buffer if it would not fit there. */
  predicate FirstFit(p: Copy, q: Request, buffer: nat, end: nat, capacity: nat)
    requires q.itemSize > 0 && p.Small?
  {
    var place := Align(end, q.itemSize);
    if place + q.elements * q.itemSize <= capacity then p.buffer == buffer && StartByte(p) == place
    else p.buffer == buffer + 1 && p.first == 0
  }

  lemma AllocateIsFirstFit(c: CopyCache, q: Request)
    requires q.itemSize > 0 && Bytes(q) <= c.limit
    ensures var p := Allocate(c, q).1;
            && p.Small? && FirstFit(p, q, c.buffers, c.offset, c.capacity)
            && p.buffer == Allocate(c, q).0.buffers && EndByte(p) == Allocate(c, q).0.offset
  {
    AlignIsNext(c.offset, q.itemSize);
    SliceBytes(Align(c.offset, q.itemSize), q.elements, q.itemSize);
  }

  lemma TightKept(c: CopyCache, q: Request)
    requires Inv(c) && Tight(c) && q.itemSize > 0
    ensures Tight(GetOrCreate(c, q))
  {
    if q.key !in c.copies {
      var c', p := Allocate(c, q).0, Allocate(c, q).1;
      AllocateFits(c, q);
      if Bytes(q) <= c.limit {
        AllocateIsFirstFit(c, q);
        StoredIsTight(c, c', q.key, p);
      } else {
        OwnIsTight(c, q.key, p);
      }
    }
  }

  lemma OwnIsTight(c: CopyCache, key: ShardedKey, p: Copy)
    requires Tight(c) && key !in c.copies && p.Own?
    ensures Tight(Store(c, key, p))
  {
    var copies := Store(c, key, p).copies;
    forall k | k in c.copies
      ensures k in copies && copies[k] == c.copies[k]
    {
    }
    if c.offset > 0 {
      var k :| k in c.copies && c.copies[k].Small? && c.copies[k].buffer == c.buffers && EndByte(c.copies[k]) == c.offset;
      assert k in copies && EndByte(copies[k]) == c.offset;
    }
    if c.buffers > 0 {
      var k :| k in c.copies && c.copies[k].Small? && c.copies[k].buffer == c.buffers;
      assert k in copies && copies[k].buffer == c.buffers;
    }
  }

  lemma StoredIsTight(c: CopyCache, c': CopyCache, key: ShardedKey, p: Copy)
    requires Tight(c) && Inv(c') && c'.copies == c.copies && key !in c.copies
    requires p.Small? && p.buffer == c'.buffers && EndByte(p) == c'.offset && c.buffers <= c'.buffers
    ensures Tight(Store(c', key, p))
  {
    var copies := Store(c', key, p).copies;
    assert key in copies && copies[key] == p;
    forall k | k in copies && copies[k].Small? && copies[k].buffer == c'.buffers
      ensures EndByte(copies[k]) <= c'.offset
    {
      assert k != key ==> Placed(c', c.copies[k]);
    }
  }

  lemma {:induction false} ServeTight(limit: nat, capacity: nat, requests: seq<Request>)
    requires limit <= capacity && Proper(requests)
    ensures Tight(Serve(Fresh(limit, capacity), requests))
  {
    if requests != [] {
      var front := requests[..|requests| - 1];
      ServeTight(limit, capacity, front);
      ServeInv(limit, capacity, front);
      TightKept(Serve(Fresh(limit, capacity), front), requests[|requests| - 1]);
    }
  }

  /** A new buffer is started only when the tensor does not fit behind what is in the last one, and the
      gap in front of a slice is less than one element. */
  lemma NoRoomIsWasted(limit: nat, capacity: nat, requests: seq<Request>, i: int)
    requires limit <= capacity && Proper(requests) && MakesSmall(requests, i, limit)
    ensures requests[i].key in Copies(limit, capacity, requests[..i + 1])
    ensures Copies(limit, capacity, requests[..i + 1])[requests[i].key].Small?
    ensures exists buffer, end ::
      && LastUsed(Copies(limit, capacity, requests[..i]), buffer) && EndsAt(Copies(limit, capacity, requests[..i]), buffer, end)
      && FirstFit(Copies(limit, capacity, requests[..i + 1])[requests[i].key], requests[i], buffer, end, capacity)
  {
    var c := Serve(Fresh(limit, capacity), requests[..i]);
    assert requests[..i + 1][..i] == requests[..i];
    ServeInv(limit, capacity, requests[..i]);
    ServeTight(limit, capacity, requests[..i]);
    CopyIsForFirst(limit, capacity, requests[..i], requests[i].key);
    AllocateIsFirstFit(c, requests[i]);
  }

  /** A key keeps its copy through all later requests. */
  lemma {:induction false} CopyStays(limit: nat, capacity: nat, requests: seq<Request>, n: nat, k: ShardedKey)
    requires limit <= capacity && n <= |requests|
    requires Proper(requests) && k in Copies(limit, capacity, requests[..n])
    ensures k in Copies(limit, capacity, requests)
    ensures Copies(limit, capacity, requests)[k] == Copies(limit, capacity, requests[..n])[k]
    decreases |requests|
  {
    if n == |requests| {
      assert requests[..n] == requests;
    } else {
      var front := requests[..|requests| - 1];
      assert front[..n] == requests[..n];
      CopyStays(limit, capacity, front, n, k);
      ServeInv(limit, capacity, front);
      RequestKeeps(Serve(Fresh(limit, capacity), front), requests[|requests| - 1]);
    }
  }

  class LocalCopies {
    const smallTensorSize: nat
    const cacheSize: nat
    var retired: nat
    var cacheOffset: nat
    var mapping: map<ShardedKey, Copy>

    function State(): CopyCache
      reads this
    {
      CopyCache(smallTensorSize, cacheSize, retired, cacheOffset, mapping)
    }

    constructor (limit: nat, capacity: nat)
      requires limit <= capacity // otherwise the source's constructor throws
      ensures State() == Fresh(limit, capacity) && Inv(State())
    {
      smallTensorSize, cacheSize := limit, capacity;
      retired, cacheOffset, mapping := 0, 0, map[];
    }

    /** The memory for a new copy. */
    method NewCopy(q: Request) returns (copy: Copy)
      requires q.itemSize > 0
      modifies this
      ensures (State(), copy) == Allocate(old(State()), q)
    {
      var bytes := q.elements * q.itemSize;
      if bytes > smallTensorSize {
        return Own(q.elements, q.itemSize);
      }
      cacheOffset := Align(cacheOffset, q.itemSize);
      if cacheOffset + bytes > cacheSize {
        retired := retired + 1;
        cacheOffset := 0;
      }
      copy := Small(retired, cacheOffset / q.itemSize, q.elements, q.itemSize);
      cacheOffset := cacheOffset + bytes;
    }

    /** GetOrCreateLocalTensorCopy, the part under the write lock. */
    method GetOrCreateLocalTensorCopy(q: Request) returns (copy: Copy)
      requires Inv(State()) && q.itemSize > 0
      modifies this
      ensures Inv(State()) && State() == GetOrCreate(old(State()), q)
      ensures q.key in mapping && copy == mapping[q.key]
      ensures q.key !in old(mapping) ==> MadeFor(copy, q, smallTensorSize)
    {
      RequestKeeps(State(), q);
      if q.key in mapping {
        return mapping[q.key];
      }
      copy := NewCopy(q);
      mapping := mapping[q.key := copy];
    }
  }
}
