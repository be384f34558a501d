/**
 * The JavaScript host (index.js): the closures `load_wasm` builds over the
 * instance's memory, its exports and the database.
 *
 * JavaScript strings are sequences of scalar values; they reach the guest
 * as UTF-8. The guest's i32 values arrive as signed numbers. Database keys
 * are the UTF-8 bytes the guest names; stored values are the JSON text
 * JSON.stringify gives for them.
 */
module JsHost {
  import opened Outcomes
  import opened LinearMemory
  import opened Decimal
  import Utf8
  import Guest
  import GoHost

  /** A thrown exception, as far as the host can tell them apart. */
  datatype Exception = RangeError | RuntimeError(reason: string)

  /** Stands for the reason the engine gives when the guest's malloc traps. */
  const MALLOC_TRAPPED: string := "malloc trapped"

  /**
   * read_string: a Uint32Array of two words at `pointer` (which must be a
   * non-negative multiple of 4 with eight bytes of memory behind it), then a
   * Uint8Array of the `sliceLength` bytes at `slicePointer`. The bytes are
   * what the TextDecoder is given.
   */
  function ReadString(mem: seq<byte>, pointer: i32): (r: Result<seq<byte>, Exception>)
    ensures r.Err? ==> r.error == RangeError
  {
    if pointer < 0 || pointer % 4 != 0 || pointer + 8 > |mem| then Err(RangeError)
    else
      var slicePointer := LoadU32(mem, pointer).value;
      var sliceLength := LoadU32(mem, pointer + 4).value;
      if slicePointer + sliceLength > |mem| then Err(RangeError)
      else Ok(mem[slicePointer..slicePointer + sliceLength])
  }

  /**
   * On a 4-aligned descriptor below 2^31, read_string reads what the Go
   * host's readString reads, and fails exactly when that fails.
   */
  lemma ReadStringAgreesWithGo(mem: seq<byte>, pointer: u32)
    requires pointer < I32_LIMIT && pointer % 4 == 0
    ensures GoHost.ReadString(mem, pointer).Ok? ==> ReadString(mem, pointer) == Ok(GoHost.ReadString(mem, pointer).value)
    ensures GoHost.ReadString(mem, pointer).Err? ==> ReadString(mem, pointer) == Err(RangeError)
  {
    assert Wrap32(pointer + 4) == pointer + 4;
  }

  /** A descriptor that is not 4-aligned always throws, wherever it points. */
  lemma ReadStringMisaligned(mem: seq<byte>, pointer: i32)
    requires pointer % 4 != 0
    ensures ReadString(mem, pointer) == Err(RangeError)
  {
  }

  /** The one inherited member of a parsed JSON object whose JSON text is not undefined. */
  const PROTO_KEY: seq<byte> := GoHost.Bytes("__proto__")

  /**
   * What `JSON.stringify(database[key])` contributes to the text sent back.
   * The lookup also sees the members the object inherits: `__proto__` is
   * Object.prototype, whose JSON text is "{}", while every other inherited
   * member is a function, which JSON.stringify turns into undefined, as it
   * does a missing key; concatenating undefined with "\x00" in send_string
   * spells "undefined".
   */
  function ValueText(database: map<seq<byte>, string>, key: seq<byte>): (r: string)
    ensures key in database ==> r == database[key]
    ensures key !in database ==> (r == "{}" <==> key == PROTO_KEY) && (r == "{}" || r == "undefined")
  {
    if key in database then database[key]
    else if key == PROTO_KEY then "{}"
    else "undefined"
  }

  /** The value text with the protocol's literal null for an absent key, as the other hosts send. */
  function ValueTextFixed(database: map<seq<byte>, string>, key: seq<byte>): string
  {
    if key in database then database[key] else "null"
  }

  /**
   * For a key that is not the database's own the guest receives the bytes
   * of "undefined" (or "{}" for `__proto__`), never the "null" the Go host
   * sends.
   */
  lemma MissingKeySendsUndefined(database: map<seq<byte>, string>, key: seq<byte>)
    requires key !in database
    ensures Utf8.Encode(ValueText(database, key)) != GoHost.NULL_TEXT
  {
    var text := ValueText(database, key);
    if text == "{}" {
      assert |Utf8.Encode(text)| == 2;
    } else {
      assert |Utf8.Encode(text)| >= 9;
    }
  }

  /** With the corrected value text an absent key sends exactly the bytes the Go host sends. */
  lemma FixedMissingKeySendsNull(database: map<seq<byte>, string>, key: seq<byte>)
    requires key !in database
    ensures Utf8.Encode(ValueTextFixed(database, key)) == GoHost.NULL_TEXT
  {
    assert ValueTextFixed(database, key) == "null";
    Utf8.EncodeAscii("null");
    var text := Utf8.Encode("null");
    forall i | 0 <= i < 4
      ensures text[i] == GoHost.NULL_TEXT[i]
    {
    }
  }

  /** A present key sends the same text with and without the correction. */
  lemma FixedAgreesOnPresentKeys(database: map<seq<byte>, string>, key: seq<byte>)
    requires key in database
    ensures ValueTextFixed(database, key) == ValueText(database, key) == database[key]
  {
  }

  /** Bytes sent by send_string are read back whole by a guest that stops at the zero byte. */
  lemma SentTextRoundTrip(mem: seq<byte>, pointer: nat, str: string)
    requires pointer + |Utf8.Encode(str)| + 1 <= |mem|
    requires forall i | 0 <= i < |str| :: str[i] != '\0'
    ensures CStringAt(Store(mem, pointer, Utf8.Encode(str) + [0]), pointer) == Some(Utf8.Encode(str))
  {
    var bytes := Utf8.Encode(str);
    var after := Store(mem, pointer, bytes + [0]);
    assert after[pointer..pointer + |bytes|] == bytes;
    CStringOfTerminated(after, pointer, bytes);
  }

  /** The word has_perm prints: "has" exactly for a result of 1 (compared with ==), "has not" for every other value. */
  function Attr(result: i32): (r: string)
    ensures r == "has" <==> result == 1
    ensures r == "has not" <==> result != 1
  {
    if result == 1 then "has" else "has not"
  }

  /** What has_perm returns: the report line, or undefined (None) once an exception was caught. */
  function Report(userID: int, perm: string, call: Result<i32, Exception>): (r: Option<string>)
    ensures r.None? <==> call.Err?
  {
    match call {
      case Err(_) => None
      case Ok(result) => Some("user " + IntText(userID) + " " + Attr(result) + " " + perm)
    }
  }

  /**
   * has_perm has no error case for unexpected codes: 7 or -1 reads as "has
   * not", like 0, where the Go host reports the error "wasm returned N" for
   * every code but 0 and 1, a negative one read as a u32 above 1.
   */
  lemma UnexpectedCodeReadsAsDenied(userID: int, perm: string, code: i32)
    requires code != 1
    ensures Report(userID, perm, Ok(code)) == Report(userID, perm, Ok(0))
    ensures code != 0 ==> GoHost.Permission(Ok(AsUnsigned(code))).Err?
  {
  }

  /** A trap of the guest's exported function surfaces in the host as a RuntimeError with its reason. */
  const AsRuntimeError: string -> Exception := reason => RuntimeError(reason)

  /**
   * One call of send_string with the encoded `message`, from memory, live
   * regions and allocator log (mem0, live0, calls0) to (mem1, live1,
   * calls1). A trapping malloc throws and changes no memory and no region;
   * the attempt is logged. A region at 2^31
   * or above reads as a negative pointer: the Uint8Array throws a
   * RangeError, the host issues no free for the region and nothing is written.
   * Otherwise the message is copied into the fresh region, whose pointer is
   * returned.
   */
  ghost predicate Sent(message: seq<byte>, r: Result<i32, Exception>,
                       mem0: seq<byte>, live0: map<u32, nat>, calls0: seq<Guest.AllocatorCall>,
                       mem1: seq<byte>, live1: map<u32, nat>, calls1: seq<Guest.AllocatorCall>)
  {
    match r
    case Ok(p) =>
      0 <= p && p + |message| <= |mem0| && Guest.Disjoint(live0, p, |message|) && live1 == live0[p := |message|]
      && calls1 == calls0 + [Guest.MallocCall(|message|, p)] && mem1 == Store(mem0, p, message)
    case Err(RangeError) =>
      mem1 == mem0 && |calls1| == |calls0| + 1 && calls1[|calls0|].MallocCall? &&
      var q := calls1[|calls0|].ptr;
      I32_LIMIT <= q && Guest.Disjoint(live0, q, |message|) && live1 == live0[q := |message|]
      && calls1 == calls0 + [Guest.MallocCall(|message|, q)]
    case Err(RuntimeError(reason)) =>
      reason == MALLOC_TRAPPED && mem1 == mem0 && live1 == live0 && calls1 == calls0 + [Guest.MallocTrapped(|message|)]
  }

  /** send_string calls malloc exactly once, and frees nothing. */
  lemma SentGrows(message: seq<byte>, r: Result<i32, Exception>,
                  mem0: seq<byte>, live0: map<u32, nat>, calls0: seq<Guest.AllocatorCall>,
                  mem1: seq<byte>, live1: map<u32, nat>, calls1: seq<Guest.AllocatorCall>)
    requires Sent(message, r, mem0, live0, calls0, mem1, live1, calls1)
    ensures Guest.Grows(calls0, live0, calls1, live1)
    ensures |calls1| == |calls0| + 1 && calls1[..|calls0|] == calls0
  {
    Guest.GrowsRefl(calls0, live0);
    if r == Err(RuntimeError(MALLOC_TRAPPED)) {
      Guest.GrowsByTrap(calls0, live0, calls0, live0, |message|);
    } else {
      Guest.GrowsByMalloc(calls0, live0, calls0, live0, |message|, calls1[|calls0|].ptr);
    }
  }

  /** The message send_string builds for `str`: its UTF-8 bytes and a zero byte. */
  function Message(str: string): (m: seq<byte>)
    ensures |m| == |Utf8.Encode(str)| + 1 && m[|m| - 1] == 0 && m[..|m| - 1] == Utf8.Encode(str)
  {
    Utf8.Encode(str) + [0]
  }

  /**
   * How getData at `keyPointer` failed, given the memory it read and the
   * allocator log with m calls before it: an unreadable key throws a
   * RangeError before any malloc; otherwise send_string failed, after one
   * malloc of the value's message, which returned 2^31 or above (RangeError)
   * or trapped.
   */
  ghost predicate LookupFailed(database: map<seq<byte>, string>, mem: seq<byte>, keyPointer: i32,
                               calls: seq<Guest.AllocatorCall>, m: nat, e: Exception)
  {
    match ReadString(mem, keyPointer)
    case Err(_) => e == RangeError && |calls| == m
    case Ok(key) =>
      if e == RangeError then
        |calls| == m + 1 && calls[m].MallocCall? && I32_LIMIT <= calls[m].ptr
        && calls[m] == Guest.MallocCall(|Message(ValueText(database, key))|, calls[m].ptr)
      else
        e == RuntimeError(MALLOC_TRAPPED) && |calls| == m + 1
        && calls[m] == Guest.MallocTrapped(|Message(ValueText(database, key))|)
  }

  /**
   * One call of getData at `keyPointer`: read the key (a RangeError when the
   * descriptor is unusable, changing nothing) and send its value text as
   * send_string does.
   */
  ghost predicate Served(database: map<seq<byte>, string>, keyPointer: i32, r: Result<i32, Exception>,
                         mem0: seq<byte>, live0: map<u32, nat>, calls0: seq<Guest.AllocatorCall>,
                         mem1: seq<byte>, live1: map<u32, nat>, calls1: seq<Guest.AllocatorCall>)
  {
    match ReadString(mem0, keyPointer)
    case Err(_) => r == Err(RangeError) && mem1 == mem0 && live1 == live0 && calls1 == calls0
    case Ok(key) => Sent(Message(ValueText(database, key)), r, mem0, live0, calls0, mem1, live1, calls1)
  }

  /**
   * A getData call only allocates; when it answers, its one malloc returned
   * the pointer and memory holds the value's message there; when it throws,
   * memory is unchanged and LookupFailed says how.
   */
  lemma ServedGrows(database: map<seq<byte>, string>, keyPointer: i32, r: Result<i32, Exception>,
                    mem0: seq<byte>, live0: map<u32, nat>, calls0: seq<Guest.AllocatorCall>,
                    mem1: seq<byte>, live1: map<u32, nat>, calls1: seq<Guest.AllocatorCall>)
    requires Served(database, keyPointer, r, mem0, live0, calls0, mem1, live1, calls1)
    ensures Guest.Grows(calls0, live0, calls1, live1)
    ensures r.Err? ==> mem1 == mem0 && LookupFailed(database, mem0, keyPointer, calls1, |calls0|, r.error)
    ensures r.Ok? ==> 0 <= r.value && ReadString(mem0, keyPointer).Ok?
    ensures r.Ok? ==>
      var message := Message(ValueText(database, ReadString(mem0, keyPointer).value));
      calls1 == calls0 + [Guest.MallocCall(|message|, r.value)] && mem1 == Store(mem0, r.value, message)
  {
    match ReadString(mem0, keyPointer)
    case Err(_) =>
      Guest.GrowsRefl(calls0, live0);
    case Ok(key) =>
      SentGrows(Message(ValueText(database, key)), r, mem0, live0, calls0, mem1, live1, calls1);
  }

  /**
   * Memory after getData answered the first |ptrs| lookups of `keys`, in
   * order: each key is read from the memory the sends before it left, and
   * its value text is sent to the pointer malloc returned for it. None when
   * a key cannot be read.
   */
  function Replay(database: map<seq<byte>, string>, mem: seq<byte>, keys: seq<u32>, ptrs: seq<u32>): (r: Option<seq<byte>>)
    requires |ptrs| <= |keys|
    ensures r.Some? ==> |r.value| == |mem|
    ensures ptrs == [] ==> r == Some(mem)
    decreases |ptrs|
  {
    if ptrs == [] then Some(mem)
    else match Replay(database, mem, keys, ptrs[..|ptrs| - 1]) {
      case None => None
      case Some(before) =>
        match ReadString(before, AsSigned(keys[|ptrs| - 1])) {
          case Err(_) => None
          case Ok(key) => Some(Store(before, ptrs[|ptrs| - 1], Message(ValueText(database, key))))
        }
    }
  }

  /** Replaying one more lookup sends its value text on top of the memory the earlier ones left. */
  lemma ReplayStep(database: map<seq<byte>, string>, mem0: seq<byte>, keys: seq<u32>, ptrs: seq<u32>,
                   p: u32, mem1: seq<byte>)
    requires |ptrs| < |keys| && Replay(database, mem0, keys, ptrs) == Some(mem1)
    requires ReadString(mem1, AsSigned(keys[|ptrs|])).Ok?
    ensures Replay(database, mem0, keys, ptrs + [p]) ==
      Some(Store(mem1, p, Message(ValueText(database, ReadString(mem1, AsSigned(keys[|ptrs|])).value))))
  {
    var extended := ptrs + [p];
    assert extended[..|extended| - 1] == ptrs && extended[|extended| - 1] == p;
  }

  /**
   * One more getData call, for the next key of `keys`, extends the replay
   * and the malloc log when it answers, and says how it failed otherwise.
   */
  lemma AnswerStep(database: map<seq<byte>, string>, mem0: seq<byte>, calls0: seq<Guest.AllocatorCall>,
                   keys: seq<u32>, returned: seq<u32>, r: Result<i32, Exception>,
                   mem1: seq<byte>, live1: map<u32, nat>, calls1: seq<Guest.AllocatorCall>,
                   mem2: seq<byte>, live2: map<u32, nat>, calls2: seq<Guest.AllocatorCall>)
    requires |returned| < |keys| && |calls1| == |calls0| + |returned|
    requires Guest.MallocsFrom(calls1, |calls0|, returned) && Replay(database, mem0, keys, returned) == Some(mem1)
    requires Served(database, AsSigned(keys[|returned|]), r, mem1, live1, calls1, mem2, live2, calls2)
    ensures Guest.Grows(calls1, live1, calls2, live2)
    ensures r.Err? ==>
      mem2 == mem1 && LookupFailed(database, mem2, AsSigned(keys[|returned|]), calls2, |calls0| + |returned|, r.error)
    ensures r.Ok? ==> 0 <= r.value && |calls2| == |calls0| + |returned| + 1
    ensures r.Ok? ==> Guest.MallocsFrom(calls2, |calls0|, returned + [r.value])
    ensures r.Ok? ==> Replay(database, mem0, keys, returned + [r.value]) == Some(mem2)
  {
    var k := AsSigned(keys[|returned|]);
    ServedGrows(database, k, r, mem1, live1, calls1, mem2, live2, calls2);
    if r.Ok? {
      var message := Message(ValueText(database, ReadString(mem1, k).value));
      Guest.MallocsFromStep(calls1, |calls0|, returned, |message|, r.value);
      ReplayStep(database, mem0, keys, returned, r.value, mem1);
    }
  }

  /**
   * One call of the guest's hasPerm as the host carries it out, from memory
   * mem0 to mem1, with the allocator calls made during it starting at index
   * n of `calls` and `returned` the pointers getData handed back: getData
   * answered the first |returned| lookups, each with the buffer of its own
   * malloc, and memory is their replay. A shorter run ended in the exception
   * of the next getData, as LookupFailed describes; a full run ended in the
   * guest's own outcome on that memory.
   */
  ghost predicate CallOf(database: map<seq<byte>, string>, userID: int, meetingID: int, permPtr: u32,
                         guest: Guest.Program, mem0: seq<byte>, mem1: seq<byte>,
                         calls: seq<Guest.AllocatorCall>, n: nat, returned: seq<u32>, r: Result<i32, Exception>)
  {
    |returned| <= |guest.lookups| && Guest.MallocsFrom(calls, n, returned) &&
    Replay(database, mem0, guest.lookups, returned) == Some(mem1) &&
    if |returned| < |guest.lookups| then
      r.Err? && LookupFailed(database, mem1, AsSigned(guest.lookups[|returned|]), calls, n + |returned|, r.error)
    else
      |calls| == n + |returned| && r == Guest.Ended(guest.decide(userID, meetingID, permPtr, returned, mem1), AsRuntimeError)
  }

  /**
   * has_perm reports "has" exactly when getData answered every lookup and
   * the guest then decided 1, and "has not" exactly when the guest decided
   * any other code: a guest that never decides 1 is never reported as
   * granting.
   */
  lemma GrantedOnlyByGuest(database: map<seq<byte>, string>, userID: int, meetingID: int, perm: string, permPtr: u32,
                           guest: Guest.Program, mem0: seq<byte>, mem1: seq<byte>,
                           calls: seq<Guest.AllocatorCall>, n: nat, returned: seq<u32>, r: Result<i32, Exception>)
    requires CallOf(database, userID, meetingID, permPtr, guest, mem0, mem1, calls, n, returned, r)
    ensures Report(userID, perm, r) == Report(userID, perm, Ok(1)) <==>
      |returned| == |guest.lookups| && guest.decide(userID, meetingID, permPtr, returned, mem1) == Guest.Returned(1)
    ensures Report(userID, perm, r) == Report(userID, perm, Ok(0)) <==>
      |returned| == |guest.lookups| && var o := guest.decide(userID, meetingID, permPtr, returned, mem1);
      o.Returned? && o.code != 1
  {
    var head := "user " + IntText(userID) + " ";
    if r.Ok? {
      assert |returned| == |guest.lookups|;
      if r.value != 1 {
        assert |Report(userID, perm, r).value| == |head| + 7 + 1 + |perm|;
        assert |Report(userID, perm, Ok(1)).value| == |head| + 3 + 1 + |perm|;
      }
    }
  }

  /**
   * A whole has_perm run past a successful send of the permission to p:
   * the log is the malloc of the permission's message, then the guest's
   * call as CallOf describes it, on the memory the send left.
   */
  ghost predicate HasPermRun(database: map<seq<byte>, string>, userID: int, meetingID: int, perm: string,
                             guest: Guest.Program, calls0: seq<Guest.AllocatorCall>, mem0: seq<byte>, p: u32,
                             calls: seq<Guest.AllocatorCall>, mem: seq<byte>,
                             returned: seq<u32>, call: Result<i32, Exception>)
  {
    p < I32_LIMIT && |calls| > |calls0| && calls[..|calls0| + 1] == calls0 + [Guest.MallocCall(|Message(perm)|, p)]
    && CallOf(database, userID, meetingID, p, guest, Store(mem0, p, Message(perm)), mem, calls, |calls0| + 1, returned, call)
  }

  /** The closures of load_wasm: memory, malloc, free and hasPerm of one instance, and the database. */
  class Bridge {
    const inst: Guest.Instance
    const database: map<seq<byte>, string>

    ghost predicate Valid()
      reads this, inst
    {
      inst.Valid()
    }

    constructor (inst: Guest.Instance, database: map<seq<byte>, string>)
      ensures this.inst == inst && this.database == database
    {
      this.inst := inst;
      this.database := database;
    }

    /**
     * send_string: encode str + "\x00", malloc exactly that many bytes and
     * copy the whole message there. The pointer is the signed number the
     * export returns; a negative one makes the Uint8Array throw.
     */
    method SendString(str: string) returns (r: Result<i32, Exception>)
      requires Valid()
      modifies inst, inst.memory
      ensures Valid()
      ensures Sent(Message(str), r, old(inst.memory[..]), old(inst.live), old(inst.calls),
                   inst.memory[..], inst.live, inst.calls)
    {
      var message := Utf8.Encode(str + "\0");
      Utf8.EncodeTerminated(str);
      var reserved := inst.Malloc(|message|);
      if reserved.None? {
        return Err(RuntimeError(MALLOC_TRAPPED));
      }
      r := PlaceMessage(reserved.value, message);
    }

    /**
     * The Uint8Array over the region malloc returned, read as a signed
     * number, and `slice.set(message)`: a negative pointer throws before
     * anything is written.
     */
    method PlaceMessage(reserved: u32, message: seq<byte>) returns (r: Result<i32, Exception>)
      requires reserved + |message| <= inst.memory.Length
      modifies inst.memory
      ensures reserved < I32_LIMIT <==> r.Ok?
      ensures r.Ok? ==> r.value == reserved && inst.memory[..] == Store(old(inst.memory[..]), reserved, message)
      ensures r.Err? ==> r.error == RangeError && inst.memory[..] == old(inst.memory[..])
    {
      var pointer := AsSigned(reserved);
      if pointer < 0 {
        return Err(RangeError);
      }
      var _ := inst.Write(pointer, message);
      r := Ok(pointer);
    }

    /** The getData import: read the key, send JSON.stringify of its value, return the pointer. */
    method GetData(keyPointer: i32) returns (r: Result<i32, Exception>)
      requires Valid()
      modifies inst, inst.memory
      ensures Valid()
      ensures Served(database, keyPointer, r, old(inst.memory[..]), old(inst.live), old(inst.calls),
                     inst.memory[..], inst.live, inst.calls)
    {
      var key := ReadString(inst.memory[..], keyPointer);
      if key.Err? {
        return Err(key.error);
      }
      var value := ValueText(database, key.value);
      r := SendString(value);
    }

    /**
     * The getData calls the guest makes during hasPerm, one per key pointer,
     * in order, until one throws (`failure`) or all are answered.
     */
    method AnswerLookups(keys: seq<u32>) returns (returned: seq<u32>, failure: Option<Exception>)
      requires Valid()
      modifies inst, inst.memory
      ensures Valid()
      ensures Guest.Grows(old(inst.calls), old(inst.live), inst.calls, inst.live)
      ensures |returned| <= |keys| && Guest.MallocsFrom(inst.calls, |old(inst.calls)|, returned)
      ensures Replay(database, old(inst.memory[..]), keys, returned) == Some(inst.memory[..])
      ensures failure.None? <==> |returned| == |keys|
      ensures failure.None? ==> |inst.calls| == |old(inst.calls)| + |returned|
      ensures failure.Some? ==>
        LookupFailed(database, inst.memory[..], AsSigned(keys[|returned|]), inst.calls,
                     |old(inst.calls)| + |returned|, failure.value)
    {
      returned := [];
      Guest.GrowsRefl(inst.calls, inst.live);
      var i := 0;
      while i < |keys|
        invariant 0 <= i <= |keys| && |returned| == i
        invariant Valid()
        invariant Guest.Grows(old(inst.calls), old(inst.live), inst.calls, inst.live)
        invariant |inst.calls| == |old(inst.calls)| + i
        invariant Guest.MallocsFrom(inst.calls, |old(inst.calls)|, returned)
        invariant Replay(database, old(inst.memory[..]), keys, returned) == Some(inst.memory[..])
      {
        ghost var calls1, live1, mem1 := inst.calls, inst.live, inst.memory[..];
        var got := GetData(AsSigned(keys[i]));
        AnswerStep(database, old(inst.memory[..]), old(inst.calls), keys, returned, got,
                   mem1, live1, calls1, inst.memory[..], inst.live, inst.calls);
        Guest.GrowsTrans(old(inst.calls), old(inst.live), calls1, live1, inst.calls, inst.live);
        if got.Err? {
          return returned, Some(got.error);
        }
        returned := returned + [got.value];
        i := i + 1;
      }
      failure := None;
    }

    /**
     * The call of the exported hasPerm; an exception thrown by getData
     * propagates out of the guest, a trap becomes a RuntimeError.
     */
    method CallHasPerm(userID: int, meetingID: int, permPointer: i32, guest: Guest.Program)
      returns (r: Result<i32, Exception>, returned: seq<u32>)
      requires Valid()
      modifies inst, inst.memory
      ensures Valid()
      ensures Guest.Grows(old(inst.calls), old(inst.live), inst.calls, inst.live)
      ensures CallOf(database, userID, meetingID, AsUnsigned(permPointer), guest, old(inst.memory[..]), inst.memory[..],
                     inst.calls, |old(inst.calls)|, returned, r)
    {
      var failure;
      returned, failure := AnswerLookups(guest.lookups);
      if failure.Some? {
        return Err(failure.value), returned;
      }
      r := Guest.Ended(guest.decide(userID, meetingID, AsUnsigned(permPointer), returned, inst.memory[..]), AsRuntimeError);
    }

    /**
     * has_perm: send the permission, call the guest, report. Nothing is ever
     * freed: the permission buffer and every buffer getData allocated are
     * never passed to free. An exception is logged and undefined is returned.
     */
    method HasPerm(userID: int, meetingID: int, perm: string, guest: Guest.Program)
      returns (r: Option<string>, ghost permPointer: Option<u32>, ghost call: Result<i32, Exception>,
               ghost returned: seq<u32>)
      requires Valid()
      modifies inst, inst.memory
      ensures Valid()
      ensures Guest.Grows(old(inst.calls), old(inst.live), inst.calls, inst.live)
      ensures permPointer.None? ==>
        call.Err? && Sent(Message(perm), call, old(inst.memory[..]), old(inst.live), old(inst.calls),
                          inst.memory[..], inst.live, inst.calls)
      ensures permPointer.Some? ==>
        HasPermRun(database, userID, meetingID, perm, guest, old(inst.calls), old(inst.memory[..]), permPointer.value,
                   inst.calls, inst.memory[..], returned, call)
      ensures r == Report(userID, perm, call)
    {
      var sent := SendString(perm);
      SentGrows(Message(perm), sent, old(inst.memory[..]), old(inst.live), old(inst.calls),
                inst.memory[..], inst.live, inst.calls);
      if sent.Err? {
        permPointer, call, returned := None, sent, [];
        return None, permPointer, call, returned;
      }
      permPointer := Some(sent.value);
      ghost var callsA, liveA := inst.calls, inst.live;
      var result, got := CallHasPerm(userID, meetingID, sent.value, guest);
      Guest.GrowsTrans(old(inst.calls), old(inst.live), callsA, liveA, inst.calls, inst.live);
      call, returned := result, got;
      r := Report(userID, perm, result);
    }
  }
}
