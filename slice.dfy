/**
 * The `Slice` wrapper around a `grpc_slice`. A non-empty slice points to a
 * reference-counted buffer; the empty slice has no buffer and no count.
 * Copying a wrapper shares the buffer and takes a reference, destroying it
 * drops one, and the buffer is freed when its count reaches zero.
 *
 * The ghost multiset `holders` of the heap records which buffer each live
 * wrapper would release when destroyed; `Balanced` says every count equals
 * the number of such wrappers, which is what makes each release safe.
 */
module Slices {
  import opened Common

  newtype byte = x: int | 0 <= x < 256

  /** Identity of a reference-counted buffer. */
  type BufId = nat

  /** A `grpc_slice` as far as counting goes: empty, or a counted buffer. */
  datatype SliceValue = EmptySlice | Counted(buf: BufId)

  /**
   * What a wrapper releases on destruction: at most one reference, and only
   * to its own buffer; the empty slice releases nothing.
   */
  function Held(v: SliceValue): (m: multiset<BufId>)
    ensures |m| <= 1
    ensures forall b :: b in m <==> v == Counted(b)
  {
    if v.Counted? then multiset{v.buf} else multiset{}
  }

  /** Two wrappers both counted among the holders: the second is still counted once the first is gone. */
  lemma HeldBoth(a: SliceValue, b: SliceValue, holders: multiset<BufId>)
    requires Held(a) + Held(b) <= holders
    ensures a.Counted? ==> a.buf in holders
    ensures b.Counted? ==> b.buf in holders - Held(a)
  {
    if b.Counted? {
      assert Held(b) <= holders - Held(a);
    }
  }

  /** Every count is the number of wrappers that will release the buffer, and only live buffers are held. */
  ghost predicate BalancedCounts(refs: map<BufId, nat>, holders: multiset<BufId>)
  {
    forall b :: BalancedAt(refs, holders, b)
  }

  /** The count of `b` equals its number of holders, and a held `b` is live. */
  predicate BalancedAt(refs: map<BufId, nat>, holders: multiset<BufId>, b: BufId)
  {
    (b in refs ==> refs[b] == holders[b]) && (b in holders ==> b in refs)
  }

  /** A fresh buffer with one reference and one holder keeps the counts balanced. */
  lemma BalancedAfterAlloc(refs: map<BufId, nat>, holders: multiset<BufId>, b: BufId)
    requires BalancedCounts(refs, holders) && b !in refs
    ensures BalancedCounts(refs[b := 1], holders + multiset{b})
  {
    assert BalancedAt(refs, holders, b);
    var refs', holders' := refs[b := 1], holders + multiset{b};
    forall c ensures BalancedAt(refs', holders', c) {
      assert BalancedAt(refs, holders, c);
    }
  }

  /** One more reference for one more holder keeps the counts balanced. */
  lemma BalancedAfterRef(refs: map<BufId, nat>, holders: multiset<BufId>, b: BufId)
    requires BalancedCounts(refs, holders) && b in refs
    ensures BalancedCounts(refs[b := refs[b] + 1], holders + multiset{b})
  {
    var refs', holders' := refs[b := refs[b] + 1], holders + multiset{b};
    forall c ensures BalancedAt(refs', holders', c) {
      assert BalancedAt(refs, holders, c);
    }
  }

  /** One reference fewer for one holder fewer keeps the counts balanced while others remain. */
  lemma BalancedAfterUnref(refs: map<BufId, nat>, holders: multiset<BufId>, b: BufId)
    requires BalancedCounts(refs, holders) && b in refs && refs[b] > 1
    ensures BalancedCounts(refs[b := refs[b] - 1], holders - multiset{b})
  {
    var refs', holders' := refs[b := refs[b] - 1], holders - multiset{b};
    forall c ensures BalancedAt(refs', holders', c) {
      assert BalancedAt(refs, holders, c);
    }
  }

  /** Dropping the last reference with the last holder frees the buffer and keeps the counts balanced. */
  lemma BalancedAfterFree(refs: map<BufId, nat>, holders: multiset<BufId>, b: BufId)
    requires BalancedCounts(refs, holders) && b in refs && refs[b] == 1
    ensures BalancedCounts(refs - {b}, holders - multiset{b})
  {
    var refs', holders' := refs - {b}, holders - multiset{b};
    forall c ensures BalancedAt(refs', holders', c) {
      assert BalancedAt(refs, holders, c);
    }
  }

  /** A held buffer is live, and its count is its number of holders. */
  lemma HeldIsLive(refs: map<BufId, nat>, holders: multiset<BufId>, b: BufId)
    requires BalancedCounts(refs, holders) && b in holders
    ensures b in refs && refs[b] == holders[b]
  {
    assert BalancedAt(refs, holders, b);
  }

  /**
   * A new holder of a held buffer with no new reference (the move
   * constructor as written) leaves the counts unbalanced.
   */
  lemma ExtraHolderUnbalances(refs: map<BufId, nat>, holders: multiset<BufId>, b: BufId)
    requires BalancedCounts(refs, holders) && b in holders
    ensures !BalancedCounts(refs, holders + multiset{b})
  {
    assert BalancedAt(refs, holders, b);
    assert !BalancedAt(refs, holders + multiset{b}, b);
  }

  /**
   * Every live buffer has a positive count and some bytes, and every
   * identity handed out so far is below `next`.
   */
  ghost predicate WellFormed(refs: map<BufId, nat>, contents: map<BufId, seq<byte>>, next: BufId)
  {
    forall b :: WellFormedAt(refs, contents, next, b)
  }

  /** `b` is live in both maps or in neither; if live, it is counted, has bytes and is below `next`. */
  predicate WellFormedAt(refs: map<BufId, nat>, contents: map<BufId, seq<byte>>, next: BufId, b: BufId)
  {
    (b in refs <==> b in contents) &&
    (b in refs ==> refs[b] >= 1 && b < next && |contents[b]| > 0)
  }

  lemma WellFormedAfterAlloc(refs: map<BufId, nat>, contents: map<BufId, seq<byte>>, next: BufId, bytes: seq<byte>)
    requires WellFormed(refs, contents, next) && |bytes| > 0
    ensures next !in refs
    ensures WellFormed(refs[next := 1], contents[next := bytes], next + 1)
  {
    assert WellFormedAt(refs, contents, next, next);
    var refs', contents', next' := refs[next := 1], contents[next := bytes], next + 1;
    forall c ensures WellFormedAt(refs', contents', next', c) {
      assert WellFormedAt(refs, contents, next, c);
    }
  }

  lemma WellFormedAfterRecount(refs: map<BufId, nat>, contents: map<BufId, seq<byte>>, next: BufId, b: BufId, n: nat)
    requires WellFormed(refs, contents, next) && b in refs && n >= 1
    ensures WellFormed(refs[b := n], contents, next)
  {
    var refs' := refs[b := n];
    forall c ensures WellFormedAt(refs', contents, next, c) {
      assert WellFormedAt(refs, contents, next, c);
    }
  }

  lemma WellFormedAfterFree(refs: map<BufId, nat>, contents: map<BufId, seq<byte>>, next: BufId, b: BufId)
    requires WellFormed(refs, contents, next)
    ensures WellFormed(refs - {b}, contents - {b}, next)
  {
    var refs', contents' := refs - {b}, contents - {b};
    forall c ensures WellFormedAt(refs', contents', next, c) {
      assert WellFormedAt(refs, contents, next, c);
    }
  }

  /** The reference-counted buffers of the slice allocator. */
  class SliceHeap {
    /** Live buffers and their reference counts. */
    var refs: map<BufId, nat>
    /** Live buffers and their bytes. */
    var contents: map<BufId, seq<byte>>
    var next: BufId
    /** Set once a reference is taken or dropped on a buffer already freed (undefined behaviour in C). */
    var useAfterFree: bool
    /** The buffer of every live wrapper, counted once per wrapper. */
    ghost var holders: multiset<BufId>

    ghost predicate Valid()
      reads this
    {
      WellFormed(refs, contents, next)
    }

    /** Every count is the number of wrappers that will release the buffer. */
    ghost predicate Balanced()
      reads this
    {
      BalancedCounts(refs, holders)
    }

    constructor ()
      ensures Valid() && Balanced() && !useAfterFree
      ensures refs == map[] && contents == map[] && holders == multiset{}
    {
      refs := map[];
      contents := map[];
      next := 0;
      useAfterFree := false;
      holders := multiset{};
    }

    /**
     * `grpc_slice_from_copied_buffer`: a new buffer holding a copy of the
     * bytes with one reference, or the empty slice for no bytes.
     */
    method CopyBytes(bytes: seq<byte>) returns (v: SliceValue)
      requires Valid()
      modifies this
      ensures Valid()
      ensures useAfterFree == old(useAfterFree)
      ensures |bytes| == 0 ==> v.EmptySlice? && refs == old(refs) && contents == old(contents)
      ensures |bytes| > 0 ==> v.Counted? && v.buf !in old(refs) &&
                              refs == old(refs)[v.buf := 1] && contents == old(contents)[v.buf := bytes]
      ensures holders == old(holders) + Held(v)
      ensures old(Balanced()) ==> Balanced()
    {
      if |bytes| == 0 {
        v := EmptySlice;
      } else {
        WellFormedAfterAlloc(refs, contents, next, bytes);
        if Balanced() {
          BalancedAfterAlloc(refs, holders, next);
        }
        v := Counted(next);
        refs := refs[next := 1];
        contents := contents[next := bytes];
        holders := holders + multiset{next};
        next := next + 1;
      }
    }

    /** `gpr_slice_ref`: one more reference to the slice's buffer; nothing for the empty slice. */
    method Ref(v: SliceValue)
      requires Valid()
      modifies this
      ensures Valid()
      ensures contents == old(contents)
      ensures v.EmptySlice? ==> refs == old(refs) && holders == old(holders) && useAfterFree == old(useAfterFree)
      ensures v.Counted? && v.buf in old(refs) ==>
                refs == old(refs)[v.buf := old(refs)[v.buf] + 1] &&
                holders == old(holders) + multiset{v.buf} && useAfterFree == old(useAfterFree)
      ensures v.Counted? && v.buf !in old(refs) ==>
                refs == old(refs) && holders == old(holders) && useAfterFree
      ensures old(Balanced()) && (v.Counted? ==> v.buf in old(refs)) ==> Balanced()
    {
      if v.Counted? {
        if v.buf in refs {
          WellFormedAfterRecount(refs, contents, next, v.buf, refs[v.buf] + 1);
          if Balanced() {
            BalancedAfterRef(refs, holders, v.buf);
          }
          refs := refs[v.buf := refs[v.buf] + 1];
          holders := holders + multiset{v.buf};
        } else {
          useAfterFree := true;
        }
      }
    }

    /**
     * `gpr_slice_unref`: one reference fewer; the buffer is freed when its
     * count reaches zero. Nothing for the empty slice.
     */
    method Unref(v: SliceValue)
      requires Valid()
      modifies this
      ensures Valid()
      ensures v.EmptySlice? ==>
                refs == old(refs) && contents == old(contents) && holders == old(holders) &&
                useAfterFree == old(useAfterFree)
      ensures v.Counted? && v.buf in old(refs) && old(refs)[v.buf] > 1 ==>
                refs == old(refs)[v.buf := old(refs)[v.buf] - 1] && contents == old(contents) &&
                useAfterFree == old(useAfterFree)
      ensures v.Counted? && v.buf in old(refs) && old(refs)[v.buf] == 1 ==>
                refs == old(refs) - {v.buf} && contents == old(contents) - {v.buf} &&
                useAfterFree == old(useAfterFree)
      ensures v.Counted? && v.buf in old(refs) ==>
                holders == old(holders) - multiset{v.buf} && useAfterFree == old(useAfterFree)
      ensures v.Counted? && v.buf !in old(refs) ==>
                refs == old(refs) && contents == old(contents) && holders == old(holders) && useAfterFree
      ensures old(Balanced()) ==> Balanced()
    {
      if v.Counted? {
        if v.buf in refs {
          Release(v.buf);
        } else {
          useAfterFree := true;
        }
      }
    }

    /** One holder of the live buffer `b` lets go: its count drops, and at zero the buffer is freed. */
    method Release(b: BufId)
      requires WellFormed(refs, contents, next) && b in refs
      modifies this
      ensures WellFormed(refs, contents, next)
      ensures old(refs)[b] > 1 ==> refs == old(refs)[b := old(refs)[b] - 1] && contents == old(contents)
      ensures old(refs)[b] == 1 ==> refs == old(refs) - {b} && contents == old(contents) - {b}
      ensures holders == old(holders) - multiset{b} && useAfterFree == old(useAfterFree)
      ensures BalancedCounts(old(refs), old(holders)) ==> BalancedCounts(refs, holders)
    {
      if refs[b] == 1 {
        Free(b);
      } else {
        assert WellFormedAt(refs, contents, next, b);
        Decrement(b);
      }
    }

    /** The last holder of `b` lets go: the buffer is freed. */
    method Free(b: BufId)
      requires WellFormed(refs, contents, next) && b in refs && refs[b] == 1
      modifies this
      ensures WellFormed(refs, contents, next)
      ensures refs == old(refs) - {b} && contents == old(contents) - {b}
      ensures holders == old(holders) - multiset{b} && useAfterFree == old(useAfterFree)
      ensures BalancedCounts(old(refs), old(holders)) ==> BalancedCounts(refs, holders)
    {
      if BalancedCounts(refs, holders) {
        BalancedAfterFree(refs, holders, b);
      }
      WellFormedAfterFree(refs, contents, next, b);
      refs, contents, holders := refs - {b}, contents - {b}, holders - multiset{b};
    }

    /** One of several holders of `b` lets go: its count drops by one. */
    method Decrement(b: BufId)
      requires WellFormed(refs, contents, next) && b in refs && refs[b] > 1
      modifies this
      ensures WellFormed(refs, contents, next)
      ensures refs == old(refs)[b := old(refs)[b] - 1] && contents == old(contents)
      ensures holders == old(holders) - multiset{b} && useAfterFree == old(useAfterFree)
      ensures BalancedCounts(old(refs), old(holders)) ==> BalancedCounts(refs, holders)
    {
      if BalancedCounts(refs, holders) {
        BalancedAfterUnref(refs, holders, b);
      }
      WellFormedAfterRecount(refs, contents, next, b, refs[b] - 1);
      refs, holders := refs[b := refs[b] - 1], holders - multiset{b};
    }
  }

  /** The bytes of a C string: everything before the first NUL. */
  function UpToNul(s: seq<byte>): (r: seq<byte>)
    ensures r <= s
    ensures forall i :: 0 <= i < |r| ==> r[i] != 0
    ensures |r| < |s| ==> s[|r|] == 0
  {
    if s == [] || s[0] == 0 then [] else [s[0]] + UpToNul(s[1..])
  }

  /** A NUL-terminated string gives back exactly the bytes before its terminator. */
  lemma {:induction false} UpToNulTerminated(t: seq<byte>, rest: seq<byte>)
    requires forall i :: 0 <= i < |t| ==> t[i] != 0
    ensures UpToNul(t + [0] + rest) == t
  {
    if t != [] {
      assert (t + [0] + rest)[1..] == t[1..] + [0] + rest;
      UpToNulTerminated(t[1..], rest);
    }
  }

  /** The bytes `grpc_byte_buffer_reader_readall` gathers: all chunks in order. */
  function Flatten(chunks: seq<seq<byte>>): (r: seq<byte>)
    ensures |r| == 0 <==> forall i :: 0 <= i < |chunks| ==> |chunks[i]| == 0
  {
    if chunks == [] then [] else chunks[0] + Flatten(chunks[1..])
  }

  /** What `data()` returns: the static empty string, or the start of the buffer; never null. */
  datatype DataPointer = StaticEmptyString | BufferStart(buf: BufId)

  class Slice {
    /** `m_Slice` */
    var handle: SliceValue

    /** The wrapper's buffer, if any, has not been freed. */
    ghost predicate Live(heap: SliceHeap)
      reads this, heap
    {
      handle.Counted? ==> handle.buf in heap.refs && handle.buf in heap.contents
    }

    /** `Slice(String)`: copies the host string's bytes. */
    constructor FromHostString(s: seq<byte>, heap: SliceHeap)
      requires heap.Valid()
      modifies heap
      ensures heap.Valid() && Live(heap)
      ensures Bytes(heap) == s
      ensures handle.Counted? ==> handle.buf !in old(heap.refs) && heap.refs == old(heap.refs)[handle.buf := 1]
      ensures handle.EmptySlice? ==> heap.refs == old(heap.refs) && heap.contents == old(heap.contents)
      ensures handle.Counted? ==> heap.contents == old(heap.contents)[handle.buf := Bytes(heap)]
      ensures heap.holders == old(heap.holders) + Held(handle)
      ensures heap.useAfterFree == old(heap.useAfterFree)
      ensures old(heap.Balanced()) ==> heap.Balanced()
    {
      var v := heap.CopyBytes(s);
      handle := v;
    }

    /**
     * `Slice(const char*)`: copies the bytes up to the terminating NUL; a null
     * pointer (None) gives the empty slice.
     */
    constructor FromCString(s: Option<seq<byte>>, heap: SliceHeap)
      requires heap.Valid()
      requires s.Some? ==> 0 in s.value
      modifies heap
      ensures heap.Valid() && Live(heap)
      ensures s.None? ==> handle.EmptySlice? && heap.refs == old(heap.refs)
      ensures s.Some? ==> Bytes(heap) == UpToNul(s.value)
      ensures handle.Counted? ==> handle.buf !in old(heap.refs) && heap.refs == old(heap.refs)[handle.buf := 1]
      ensures handle.EmptySlice? ==> heap.refs == old(heap.refs) && heap.contents == old(heap.contents)
      ensures handle.Counted? ==> heap.contents == old(heap.contents)[handle.buf := Bytes(heap)]
      ensures heap.holders == old(heap.holders) + Held(handle)
      ensures heap.useAfterFree == old(heap.useAfterFree)
      ensures old(heap.Balanced()) ==> heap.Balanced()
    {
      if s.None? {
        handle := EmptySlice;
      } else {
        var v := heap.CopyBytes(UpToNul(s.value));
        handle := v;
      }
    }

    /**
     * `Slice(const char*, size_t)`: copies `length` bytes; a null pointer
     * gives the empty slice whatever the length.
     */
    constructor FromBuffer(s: Option<seq<byte>>, length: nat, heap: SliceHeap)
      requires heap.Valid()
      requires s.Some? ==> length <= |s.value|
      modifies heap
      ensures heap.Valid() && Live(heap)
      ensures s.None? ==> handle.EmptySlice? && heap.refs == old(heap.refs)
      ensures s.Some? ==> Bytes(heap) == s.value[..length]
      ensures handle.Counted? ==> handle.buf !in old(heap.refs) && heap.refs == old(heap.refs)[handle.buf := 1]
      ensures handle.EmptySlice? ==> heap.refs == old(heap.refs) && heap.contents == old(heap.contents)
      ensures handle.Counted? ==> heap.contents == old(heap.contents)[handle.buf := Bytes(heap)]
      ensures heap.holders == old(heap.holders) + Held(handle)
      ensures heap.useAfterFree == old(heap.useAfterFree)
      ensures old(heap.Balanced()) ==> heap.Balanced()
    {
      if s.None? {
        handle := EmptySlice;
      } else {
        var v := heap.CopyBytes(s.value[..length]);
        handle := v;
      }
    }

    /**
     * `Slice(const grpc_byte_buffer*)`: reads the whole buffer; a null buffer
     * or a reader that fails to initialise gives the empty slice.
     */
    constructor FromByteBuffer(buffer: Option<seq<seq<byte>>>, readerInitOk: bool, heap: SliceHeap)
      requires heap.Valid()
      modifies heap
      ensures heap.Valid() && Live(heap)
      ensures (buffer.None? || !readerInitOk) ==> handle.EmptySlice? && heap.refs == old(heap.refs)
      ensures buffer.Some? && readerInitOk ==> Bytes(heap) == Flatten(buffer.value)
      ensures handle.Counted? ==> handle.buf !in old(heap.refs) && heap.refs == old(heap.refs)[handle.buf := 1]
      ensures handle.EmptySlice? ==> heap.refs == old(heap.refs) && heap.contents == old(heap.contents)
      ensures handle.Counted? ==> heap.contents == old(heap.contents)[handle.buf := Bytes(heap)]
      ensures heap.holders == old(heap.holders) + Held(handle)
      ensures heap.useAfterFree == old(heap.useAfterFree)
      ensures old(heap.Balanced()) ==> heap.Balanced()
    {
      if buffer.None? || !readerInitOk {
        handle := EmptySlice;
      } else {
        var v := heap.CopyBytes(Flatten(buffer.value));
        handle := v;
      }
    }

    /** The copy constructor: shares the other wrapper's buffer and takes one reference. */
    constructor Copy(other: Slice, heap: SliceHeap)
      requires heap.Valid() && other.Live(heap)
      modifies heap
      ensures heap.Valid() && Live(heap)
      ensures handle == other.handle && other.handle == old(other.handle)
      ensures handle.Counted? ==> heap.refs == old(heap.refs)[handle.buf := old(heap.refs)[handle.buf] + 1]
      ensures handle.EmptySlice? ==> heap.refs == old(heap.refs)
      ensures heap.contents == old(heap.contents)
      ensures heap.holders == old(heap.holders) + Held(handle)
      ensures heap.useAfterFree == old(heap.useAfterFree)
      ensures old(heap.Balanced()) ==> heap.Balanced()
    {
      handle := other.handle;
      new;
      heap.Ref(handle);
    }

    /**
     * The move constructor AS WRITTEN: copies the handle without taking a
     * reference and without emptying the source, so two wrappers will each
     * release a buffer that counts only one of them.
     */
    constructor MoveAsWritten(other: Slice, heap: SliceHeap)
      requires heap.Valid()
      modifies heap`holders
      ensures handle == other.handle && other.handle == old(other.handle)
      ensures heap.refs == old(heap.refs)
      ensures heap.holders == old(heap.holders) + Held(handle)
      ensures old(heap.Balanced()) && other.handle.Counted? && other.handle.buf in old(heap.holders) ==>
                !heap.Balanced()
    {
      handle := other.handle;
      new;
      if heap.Balanced() && handle.Counted? && handle.buf in heap.holders {
        ExtraHolderUnbalances(heap.refs, heap.holders, handle.buf);
      }
      heap.holders := heap.holders + Held(handle);
    }

    /** The move constructor as intended: takes over the handle and leaves the source empty. */
    constructor Move(other: Slice, heap: SliceHeap)
      modifies other
      ensures handle == old(other.handle) && other.handle.EmptySlice?
      ensures heap.refs == old(heap.refs) && heap.holders == old(heap.holders)
      ensures old(other.Live(heap)) ==> Live(heap)
    {
      handle := other.handle;
      new;
      other.handle := EmptySlice;
    }

    /** `destroy`: drops this wrapper's reference (the destructor calls it). */
    method Destroy(heap: SliceHeap)
      requires heap.Valid()
      modifies heap
      ensures heap.Valid()
      ensures handle.EmptySlice? ==>
                heap.refs == old(heap.refs) && heap.contents == old(heap.contents) &&
                heap.holders == old(heap.holders) && heap.useAfterFree == old(heap.useAfterFree)
      ensures handle.Counted? && handle.buf in old(heap.refs) ==>
                heap.holders == old(heap.holders) - multiset{handle.buf} &&
                heap.useAfterFree == old(heap.useAfterFree) &&
                (old(heap.refs)[handle.buf] == 1 ==>
                   heap.refs == old(heap.refs) - {handle.buf} &&
                   heap.contents == old(heap.contents) - {handle.buf}) &&
                (old(heap.refs)[handle.buf] > 1 ==>
                   heap.refs == old(heap.refs)[handle.buf := old(heap.refs)[handle.buf] - 1] &&
                   heap.contents == old(heap.contents))
      ensures handle.Counted? && handle.buf !in old(heap.refs) ==>
                heap.refs == old(heap.refs) && heap.contents == old(heap.contents) &&
                heap.holders == old(heap.holders) && heap.useAfterFree
      ensures old(heap.Balanced()) ==> heap.Balanced()
    {
      heap.Unref(handle);
    }

    /** `increaseRef`: takes one more reference to this wrapper's buffer. */
    method IncreaseRef(heap: SliceHeap)
      requires heap.Valid()
      modifies heap
      ensures heap.Valid()
      ensures heap.contents == old(heap.contents)
      ensures handle.EmptySlice? ==>
                heap.refs == old(heap.refs) && heap.holders == old(heap.holders) &&
                heap.useAfterFree == old(heap.useAfterFree)
      ensures handle.Counted? && handle.buf in old(heap.refs) ==>
                heap.refs == old(heap.refs)[handle.buf := old(heap.refs)[handle.buf] + 1] &&
                heap.holders == old(heap.holders) + multiset{handle.buf} &&
                heap.useAfterFree == old(heap.useAfterFree)
      ensures handle.Counted? && handle.buf !in old(heap.refs) ==>
                heap.refs == old(heap.refs) && heap.holders == old(heap.holders) && heap.useAfterFree
      ensures old(heap.Balanced()) && (handle.Counted? ==> handle.buf in old(heap.refs)) ==> heap.Balanced()
    {
      heap.Ref(handle);
    }

    /**
     * Copy assignment: assigning a wrapper to itself changes nothing;
     * otherwise the old buffer loses a reference and the right-hand buffer is
     * shared with one more.
     */
    method CopyAssign(rhs: Slice, heap: SliceHeap)
      requires heap.Valid()
      modifies this, heap
      ensures heap.Valid()
      ensures rhs == this ==>
                handle == old(handle) && heap.refs == old(heap.refs) && heap.contents == old(heap.contents) &&
                heap.holders == old(heap.holders)
      ensures rhs != this ==> handle == rhs.handle && rhs.handle == old(rhs.handle)
      ensures heap.contents == old(heap.contents) ||
              (old(handle).Counted? && heap.contents == old(heap.contents) - {old(handle).buf})
      ensures rhs != this && old(heap.Balanced()) && old(Held(handle) + Held(rhs.handle) <= heap.holders) ==>
                Bytes(heap) == old(rhs.Bytes(heap))
      ensures rhs != this && old(heap.Balanced()) && old(Held(handle) + Held(rhs.handle) <= heap.holders) ==>
                heap.Balanced() && heap.useAfterFree == old(heap.useAfterFree) &&
                heap.holders == old(heap.holders) - Held(old(handle)) + Held(handle)
    {
      if rhs != this {
        ghost var balanced := heap.Balanced() && Held(handle) + Held(rhs.handle) <= heap.holders;
        if balanced {
          HeldBoth(handle, rhs.handle, heap.holders);
          if handle.Counted? {
            HeldIsLive(heap.refs, heap.holders, handle.buf);
          }
        }
        ghost var rhsBytes := rhs.Bytes(heap);
        if handle.Counted? {
          assert WellFormedAt(heap.refs, heap.contents, heap.next, handle.buf);
        }
        Destroy(heap);
        if balanced && rhs.handle.Counted? {
          HeldIsLive(heap.refs, heap.holders, rhs.handle.buf);
          assert WellFormedAt(heap.refs, heap.contents, heap.next, rhs.handle.buf);
        }
        assert balanced ==> heap.Balanced() && heap.holders == old(heap.holders) - Held(old(handle));
        assert balanced && rhs.handle.Counted? ==> rhs.handle.buf in heap.refs;
        assert balanced ==> rhs.Bytes(heap) == rhsBytes;
        handle := rhs.handle;
        IncreaseRef(heap);
      }
    }

    /** Move assignment: swaps the two handles (a no-op on itself); no count changes. */
    method MoveAssign(rhs: Slice)
      modifies this, rhs
      ensures rhs == this ==> handle == old(handle)
      ensures rhs != this ==> handle == old(rhs.handle) && rhs.handle == old(handle)
    {
      if rhs != this {
        handle, rhs.handle := rhs.handle, handle;
      }
    }

    /** The bytes the wrapper refers to. */
    ghost function Bytes(heap: SliceHeap): seq<byte>
      reads this, heap
    {
      if handle.Counted? && handle.buf in heap.contents then heap.contents[handle.buf] else []
    }

    /** `length()` */
    function Length(heap: SliceHeap): (n: nat)
      requires Live(heap)
      reads this, heap
      ensures n == |Bytes(heap)|
    {
      if handle.Counted? then |heap.contents[handle.buf]| else 0
    }

    /** `data()`: never null; the static empty string exactly when the slice has no bytes. */
    function Data(heap: SliceHeap): (p: DataPointer)
      requires heap.Valid() && Live(heap)
      reads this, heap
      ensures p.StaticEmptyString? <==> Length(heap) == 0
      ensures p.BufferStart? ==> p.buf == handle.buf && p.buf in heap.contents
    {
      if Length(heap) == 0 then StaticEmptyString else BufferStart(handle.buf)
    }

    /** `string()`: `length()` bytes read from `data()`. */
    function String(heap: SliceHeap): (s: seq<byte>)
      requires heap.Valid() && Live(heap)
      reads this, heap
      ensures |s| == Length(heap)
      ensures s == Bytes(heap)
    {
      var p := Data(heap);
      if p.StaticEmptyString? then [] else heap.contents[p.buf][..Length(heap)]
    }
  }

  /** A host string copied into a slice reads back unchanged. */
  method HostStringRoundTrip(s: seq<byte>, heap: SliceHeap) returns (r: seq<byte>)
    requires heap.Valid()
    modifies heap
    ensures r == s
  {
    var slice := new Slice.FromHostString(s, heap);
    r := slice.String(heap);
  }

  /**
   * The move constructor as written, applied to the only wrapper of a
   * buffer, followed by the destruction of both wrappers: the first
   * destruction frees the buffer, the second releases it again.
   */
  method MoveAsWrittenThenDestroyBoth(source: Slice, heap: SliceHeap)
    requires heap.Valid() && !heap.useAfterFree
    requires source.handle.Counted? && source.handle.buf in heap.refs && heap.refs[source.handle.buf] == 1
    modifies heap
    ensures heap.useAfterFree
  {
    var moved := new Slice.MoveAsWritten(source, heap);
    source.Destroy(heap);
    moved.Destroy(heap);
  }

  /**
   * The intended move followed by the destruction of both wrappers: the
   * buffer loses exactly the one reference the source held, and every count
   * still matches its holders.
   */
  method MoveThenDestroyBoth(source: Slice, heap: SliceHeap)
    requires heap.Valid() && heap.Balanced() && !heap.useAfterFree
    requires Held(source.handle) <= heap.holders
    modifies source, heap
    ensures heap.Valid() && heap.Balanced() && !heap.useAfterFree
    ensures heap.holders == old(heap.holders) - Held(old(source.handle))
  {
    if source.handle.Counted? {
      HeldIsLive(heap.refs, heap.holders, source.handle.buf);
    }
    var moved := new Slice.Move(source, heap);
    source.Destroy(heap);
    moved.Destroy(heap);
  }
}
