/**
 * The guest module as the hosts see it: a linear memory they read and write
 * in place, an allocator reached through the exports `malloc` and `free`,
 * and a decision function `hasPerm` that calls back into the host.
 *
 * The guest is an opaque binary. Its allocator is specified by contract
 * (a successful `Malloc` returns a region inside memory that overlaps no
 * live region); the bump pointer in its body is only a witness that the
 * contract can be met, and no host relies on it.
 */
module Guest {
  import opened Outcomes
  import opened LinearMemory

  /**
   * One call the host makes into the guest's allocator: a `malloc` that
   * returned `ptr`, a `malloc` of `size` bytes that trapped, or a `free`.
   */
  datatype AllocatorCall = MallocCall(size: nat, ptr: u32) | MallocTrapped(size: nat) | FreeCall(ptr: u32, size: nat)

  /** A region the host obtained from `malloc`: its start and the size the host asked for. */
  datatype Buffer = Buffer(ptr: u32, size: nat)

  /** How a call of the guest's `hasPerm` ends. */
  datatype Outcome = Returned(code: i32) | Trapped(reason: string)

  /**
   * How a call of an exported function ends as a host sees it: the code the
   * guest returned, or its trap turned into the host's own error by `trapped`.
   */
  function Ended<E>(o: Outcome, trapped: string -> E): (r: Result<i32, E>)
    ensures r.Ok? <==> o.Returned?
    ensures r.Ok? ==> r.value == o.code
    ensures r.Err? ==> r.error == trapped(o.reason)
  {
    match o
    case Returned(code) => Ok(code)
    case Trapped(reason) => Err(trapped(reason))
  }

  /**
   * The guest's `hasPerm` as seen from the host: during the call it invokes
   * the host's `getData` import once per entry of `lookups`, in order, with
   * that entry as the descriptor pointer; then `decide` gives the outcome from
   * the two ids, the permission pointer, the pointers `getData` returned and
   * the memory as it is at the end of the call.
   */
  datatype Program = Program(lookups: seq<u32>, decide: (int, int, u32, seq<u32>, seq<byte>) -> Outcome)

  /** The region [ptr, ptr + size) overlaps no region of `live`, and does not start at a live pointer. */
  ghost predicate Disjoint(live: map<u32, nat>, ptr: u32, size: nat)
  {
    ptr !in live && forall q | q in live :: q + live[q] <= ptr || ptr + size <= q
  }

  /** Every call of `calls` is a `malloc`, returned or trapped: the host released nothing. */
  ghost predicate OnlyMallocs(calls: seq<AllocatorCall>)
  {
    forall i | 0 <= i < |calls| :: !calls[i].FreeCall?
  }

  /** `after` keeps every region of `before` with its size. */
  ghost predicate Keeps(before: map<u32, nat>, after: map<u32, nat>)
  {
    forall q | q in before :: q in after && after[q] == before[q]
  }

  /**
   * From the state (calls0, live0) to (calls1, live1) the host only called
   * malloc, and every region it obtained is still live: the log was extended
   * by mallocs alone, no region of live0 was released, and each pointer a
   * malloc returned was not live before and is live now.
   */
  ghost predicate Grows(calls0: seq<AllocatorCall>, live0: map<u32, nat>, calls1: seq<AllocatorCall>, live1: map<u32, nat>)
  {
    |calls1| >= |calls0| && calls1[..|calls0|] == calls0 &&
    OnlyMallocs(calls1[|calls0|..]) && Keeps(live0, live1) &&
    forall i | |calls0| <= i < |calls1| :: calls1[i].MallocCall? ==> calls1[i].ptr in live1 && calls1[i].ptr !in live0
  }

  lemma GrowsRefl(calls: seq<AllocatorCall>, live: map<u32, nat>)
    ensures Grows(calls, live, calls, live)
  {
    assert calls[..|calls|] == calls;
  }

  /** One more malloc of a region that was not live keeps the growth. */
  lemma GrowsByMalloc(calls0: seq<AllocatorCall>, live0: map<u32, nat>,
                      calls1: seq<AllocatorCall>, live1: map<u32, nat>, size: nat, ptr: u32)
    requires Grows(calls0, live0, calls1, live1)
    requires ptr !in live1
    ensures Grows(calls0, live0, calls1 + [MallocCall(size, ptr)], live1[ptr := size])
  {
    var calls2 := calls1 + [MallocCall(size, ptr)];
    assert calls2[..|calls0|] == calls0;
    assert calls2[|calls0|..] == calls1[|calls0|..] + [MallocCall(size, ptr)];
  }

  /** A trapped malloc keeps the growth: it is logged and changes no region. */
  lemma GrowsByTrap(calls0: seq<AllocatorCall>, live0: map<u32, nat>,
                    calls1: seq<AllocatorCall>, live1: map<u32, nat>, size: nat)
    requires Grows(calls0, live0, calls1, live1)
    ensures Grows(calls0, live0, calls1 + [MallocTrapped(size)], live1)
  {
    var calls2 := calls1 + [MallocTrapped(size)];
    assert calls2[..|calls0|] == calls0;
    assert calls2[|calls0|..] == calls1[|calls0|..] + [MallocTrapped(size)];
  }

  /** Growth composes. */
  lemma GrowsTrans(calls0: seq<AllocatorCall>, live0: map<u32, nat>, calls1: seq<AllocatorCall>, live1: map<u32, nat>,
                   calls2: seq<AllocatorCall>, live2: map<u32, nat>)
    requires Grows(calls0, live0, calls1, live1) && Grows(calls1, live1, calls2, live2)
    ensures Grows(calls0, live0, calls2, live2)
  {
    assert calls2[..|calls0|] == calls1[..|calls0|];
    forall i | |calls0| <= i < |calls2|
      ensures !calls2[i].FreeCall? && (calls2[i].MallocCall? ==> calls2[i].ptr in live2 && calls2[i].ptr !in live0)
    {
      if i < |calls1| {
        assert calls2[i] == calls1[i];
        assert calls1[i] == calls1[|calls0|..][i - |calls0|];
      } else {
        assert calls2[i] == calls2[|calls1|..][i - |calls1|];
      }
    }
  }

  /** From index n on, `calls` begins with one malloc per pointer of `returned`, in order, each returning it. */
  ghost predicate MallocsFrom(calls: seq<AllocatorCall>, n: nat, returned: seq<u32>)
  {
    n + |returned| <= |calls| &&
    forall i | 0 <= i < |returned| :: calls[n + i] == MallocCall(calls[n + i].size, returned[i])
  }

  /** One more malloc at the end of the log matches one more returned pointer. */
  lemma MallocsFromStep(calls: seq<AllocatorCall>, n: nat, returned: seq<u32>, size: nat, p: u32)
    requires MallocsFrom(calls, n, returned) && |calls| == n + |returned|
    ensures MallocsFrom(calls + [MallocCall(size, p)], n, returned + [p])
  {
  }

  /** Calls logged later leave the mallocs from index n on as they were. */
  lemma MallocsFromExtended(calls: seq<AllocatorCall>, n: nat, returned: seq<u32>, later: seq<AllocatorCall>)
    requires MallocsFrom(calls, n, returned)
    ensures MallocsFrom(calls + later, n, returned)
  {
  }

  class Instance {
    const memory: array<byte>
    const exports: set<string>
    var heapTop: nat
    var live: map<u32, nat>
    ghost var calls: seq<AllocatorCall>

    ghost predicate Valid()
      reads this
    {
      memory.Length <= U32_LIMIT && heapTop <= memory.Length &&
      forall q | q in live :: q < heapTop && q + live[q] <= heapTop
    }

    /** A freshly instantiated module: `image` is its initial memory, the heap starts at `heapBase`. */
    constructor (image: seq<byte>, exports: set<string>, heapBase: nat)
      requires |image| <= U32_LIMIT && heapBase <= |image|
      ensures Valid() && fresh(memory)
      ensures memory[..] == image && this.exports == exports
      ensures live == map[] && calls == []
    {
      memory := new byte[|image|](i requires 0 <= i < |image| => image[i]);
      this.exports := exports;
      heapTop := heapBase;
      live := map[];
      calls := [];
    }

    /** The export `malloc`: reserve `size` bytes, or trap; either way the call is logged. */
    method Malloc(size: nat) returns (r: Option<u32>)
      requires Valid()
      modifies this
      ensures Valid()
      ensures r.Some? ==> r.value + size <= memory.Length && Disjoint(old(live), r.value, size)
      ensures r.Some? ==> live == old(live)[r.value := size] && calls == old(calls) + [MallocCall(size, r.value)]
      ensures r.None? ==> live == old(live) && calls == old(calls) + [MallocTrapped(size)]
    {
      var step := if size == 0 then 1 else size;
      if heapTop + step <= memory.Length {
        r := Some(heapTop);
        live := live[heapTop := size];
        calls := calls + [MallocCall(size, heapTop)];
        heapTop := heapTop + step;
      } else {
        r := None;
        calls := calls + [MallocTrapped(size)];
      }
    }

    /** The export `free`: release the region starting at `ptr`. */
    method Free(ptr: u32, size: nat)
      requires Valid()
      modifies this
      ensures Valid()
      ensures live == old(live) - {ptr} && calls == old(calls) + [FreeCall(ptr, size)]
    {
      live := live - {ptr};
      calls := calls + [FreeCall(ptr, size)];
    }

    /** Copy `data` into memory at `offset`; nothing is written unless all of it fits. */
    method Write(offset: nat, data: seq<byte>) returns (ok: bool)
      modifies memory
      ensures ok == (offset + |data| <= memory.Length)
      ensures memory[..] == Store(old(memory[..]), offset, data)
    {
      ok := offset + |data| <= memory.Length;
      if ok {
        var i := 0;
        while i < |data|
          invariant 0 <= i <= |data|
          invariant forall k | 0 <= k < memory.Length ::
            memory[k] == if offset <= k < offset + i then data[k - offset] else old(memory[k])
        {
          memory[offset + i] := data[i];
          i := i + 1;
        }
      }
      assert memory[..] == Store(old(memory[..]), offset, data);
    }

    /** Write the single byte `b` at `offset`, if that address is inside memory. */
    method WriteByte(offset: nat, b: byte) returns (ok: bool)
      modifies memory
      ensures ok == (offset < memory.Length)
      ensures memory[..] == Store(old(memory[..]), offset, [b])
    {
      ok := offset < memory.Length;
      if ok {
        memory[offset] := b;
      }
      assert memory[..] == Store(old(memory[..]), offset, [b]);
    }
  }
}
