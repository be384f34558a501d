/**
 * The Go host (main.go): argument parsing, the wasmRuntime that owns the
 * guest instance, and the string marshalling between host and guest.
 *
 * Go strings are byte sequences, so every string here is a `GoString`;
 * `error` values are their message text.
 */
module GoHost {
  import opened Outcomes
  import opened LinearMemory
  import opened Decimal
  import Guest

  type GoString = seq<byte>

  /** The bytes of a text literal; every literal used here is ASCII, one byte per character. */
  function Bytes(s: string): (b: GoString)
    ensures |b| == |s|
  {
    seq(|s|, i requires 0 <= i < |s| => (s[i] as int) % 256)
  }

  lemma BytesAppend(a: string, b: string)
    ensures Bytes(a + b) == Bytes(a) + Bytes(b)
  {
    assert forall i | 0 <= i < |a + b| :: Bytes(a + b)[i] == (Bytes(a) + Bytes(b))[i];
  }

  // ---------------------------------------------------------------------
  // strconv.Atoi and parseArgs
  // ---------------------------------------------------------------------

  const INT64_MIN: int := -0x8000_0000_0000_0000
  const INT64_MAX: int := 0x7FFF_FFFF_FFFF_FFFF

  predicate IsDigitByte(b: byte) { '0' as int <= b <= '9' as int }

  /** The value of a non-empty run of ASCII digits; None for anything else. */
  function DigitsValue(s: GoString): (v: Option<nat>)
    ensures v.Some? <==> |s| > 0 && forall i | 0 <= i < |s| :: IsDigitByte(s[i])
    decreases |s|
  {
    if |s| == 0 || !IsDigitByte(s[|s| - 1]) then None
    else if |s| == 1 then Some(s[0] - '0' as int)
    else match DigitsValue(s[..|s| - 1]) {
      case None => None
      case Some(v) => Some(10 * v + (s[|s| - 1] - '0' as int))
    }
  }

  /**
   * strconv.Atoi: an optional sign followed by one or more decimal digits,
   * whose value fits in 64 bits; anything else is an error (None).
   */
  function Atoi(s: GoString): (r: Option<int>)
    ensures r.Some? ==> INT64_MIN <= r.value <= INT64_MAX
  {
    var signed := |s| > 0 && (s[0] == '+' as int || s[0] == '-' as int);
    var digits := if signed then s[1..] else s;
    match DigitsValue(digits) {
      case None => None
      case Some(v) =>
        var n: int := if signed && s[0] == '-' as int then -(v as int) else v;
        if INT64_MIN <= n <= INT64_MAX then Some(n) else None
    }
  }

  lemma {:induction false} DigitsValueOfNatText(n: nat)
    ensures DigitsValue(Bytes(NatText(n))) == Some(n)
    decreases n
  {
    if n >= 10 {
      DigitsValueOfNatText(n / 10);
      BytesAppend(NatText(n / 10), [DigitChar(n % 10)]);
      var s := Bytes(NatText(n));
      assert s[..|s| - 1] == Bytes(NatText(n / 10));
    }
  }

  /** Atoi reads back every 64-bit integer printed in base ten. */
  lemma AtoiOfIntText(n: int)
    requires INT64_MIN <= n <= INT64_MAX
    ensures Atoi(Bytes(IntText(n))) == Some(n)
  {
    if n < 0 {
      AtoiOfNegativeText(n);
    } else {
      DigitsValueOfNatText(n);
    }
  }

  lemma AtoiOfNegativeText(n: int)
    requires INT64_MIN <= n < 0
    ensures Atoi(Bytes(IntText(n))) == Some(n)
  {
    DigitsValueOfNatText(-n);
    BytesAppend("-", NatText(-n));
    var s := Bytes(IntText(n));
    assert s[0] == '-' as int;
    assert s[1..] == Bytes(NatText(-n));
  }

  datatype Args = Args(userID: int, meetingID: int, perm: GoString)

  /** Why parseArgs gave up: an error value, or an index-out-of-range panic on an empty argument list. */
  datatype ArgsError = WrongCall(message: GoString) | IndexOutOfRange

  function UsageText(program: GoString): GoString
  {
    Bytes("Run: ") + program + Bytes(" USER_ID MEETING_ID PERM")
  }

  const NOT_INT: GoString := Bytes("USERID has to be int")

  /** parseArgs: the program name, two integer ids and the permission name. */
  function ParseArgs(args: seq<GoString>): (r: Result<Args, ArgsError>)
    ensures r.Ok? ==> |args| >= 4 && r.value.perm == args[3]
    ensures r.Err? ==> r.error == IndexOutOfRange || r.error == WrongCall(NOT_INT)
                       || (0 < |args| < 4 && r.error == WrongCall(UsageText(args[0])))
  {
    if |args| < 4 then
      if |args| == 0 then Err(IndexOutOfRange) else Err(WrongCall(UsageText(args[0])))
    else match Atoi(args[1]) {
      case None => Err(WrongCall(NOT_INT))
      case Some(userID) =>
        match Atoi(args[2]) {
          case None => Err(WrongCall(NOT_INT))
          case Some(meetingID) => Ok(Args(userID, meetingID, args[3]))
        }
    }
  }

  /** Fewer than four arguments: the usage text naming the program (a panic when there is not even a name). */
  lemma ParseArgsTooFew(args: seq<GoString>)
    requires |args| < 4
    ensures |args| == 0 ==> ParseArgs(args) == Err(IndexOutOfRange)
    ensures |args| > 0 ==> ParseArgs(args) == Err(WrongCall(UsageText(args[0])))
  {
  }

  /** Either id failing to parse gives the one message "USERID has to be int". */
  lemma ParseArgsNotInt(args: seq<GoString>)
    requires |args| >= 4 && (Atoi(args[1]).None? || Atoi(args[2]).None?)
    ensures ParseArgs(args) == Err(WrongCall(NOT_INT))
  {
  }

  /** Any two 64-bit ids printed in base ten parse back; the permission is taken verbatim; extra arguments are ignored. */
  lemma ParseArgsRoundTrip(program: GoString, userID: int, meetingID: int, perm: GoString, extra: seq<GoString>)
    requires INT64_MIN <= userID <= INT64_MAX && INT64_MIN <= meetingID <= INT64_MAX
    ensures ParseArgs([program, Bytes(IntText(userID)), Bytes(IntText(meetingID)), perm] + extra)
            == Ok(Args(userID, meetingID, perm))
  {
    AtoiOfIntText(userID);
    AtoiOfIntText(meetingID);
  }

  // ---------------------------------------------------------------------
  // newWasmRuntime: the required exports
  // ---------------------------------------------------------------------

  const REQUIRED_EXPORTS: seq<string> := ["hasPerm", "malloc", "free"]

  /** The first name of `required` that `exports` lacks. */
  function FirstMissing(required: seq<string>, exports: set<string>): (r: Option<string>)
    ensures r.None? <==> forall k | 0 <= k < |required| :: required[k] in exports
    ensures r.Some? ==> exists k | 0 <= k < |required| ::
      r.value == required[k] && r.value !in exports &&
      forall j | 0 <= j < k :: required[j] in exports
  {
    if required == [] then None
    else if required[0] !in exports then Some(required[0])
    else match FirstMissing(required[1..], exports) {
      case None => None
      case Some(name) =>
        assert forall k | 0 <= k < |required| - 1 :: required[1..][k] == required[k + 1];
        Some(name)
    }
  }

  /** The first required export, in the order hasPerm, malloc, free, that the module lacks. */
  function MissingExport(exports: set<string>): Option<string>
  {
    FirstMissing(REQUIRED_EXPORTS, exports)
  }

  /** The exports are checked in the order hasPerm, then malloc, then free. */
  lemma MissingExportOrder(exports: set<string>)
    ensures MissingExport(exports) ==
      if "hasPerm" !in exports then Some("hasPerm")
      else if "malloc" !in exports then Some("malloc")
      else if "free" !in exports then Some("free")
      else None
  {
    assert REQUIRED_EXPORTS[1..] == ["malloc", "free"];
    assert ["malloc", "free"][1..] == ["free"];
    assert ["free"][1..] == [];
    assert FirstMissing([], exports) == None;
    assert FirstMissing(["free"], exports) == if "free" !in exports then Some("free") else None;
    assert FirstMissing(["malloc", "free"], exports) ==
      if "malloc" !in exports then Some("malloc") else FirstMissing(["free"], exports);
  }

  function ExportNotFound(name: string): GoString
  {
    Bytes("can not find function " + name)
  }

  /**
   * newWasmRuntime. Building the host module and instantiating the guest are
   * the runtime's business; they arrive here as their outcomes.
   */
  method NewWasmRuntime(hostModule: Option<GoString>, instantiated: Result<Guest.Instance, GoString>,
                        database: map<GoString, GoString>)
    returns (r: Result<WasmRuntime, GoString>)
    ensures hostModule.Some? ==> r == Err(Bytes("create host module: ") + hostModule.value)
    ensures hostModule.None? && instantiated.Err? ==> r == Err(Bytes("instantiate: ") + instantiated.error)
    ensures hostModule.None? && instantiated.Ok? && MissingExport(instantiated.value.exports).Some? ==>
      r == Err(ExportNotFound(MissingExport(instantiated.value.exports).value))
    ensures hostModule.None? && instantiated.Ok? && MissingExport(instantiated.value.exports).None? ==>
      r.Ok? && fresh(r.value) && r.value.inst == instantiated.value && r.value.database == database
  {
    if hostModule.Some? {
      return Err(Bytes("create host module: ") + hostModule.value);
    }
    if instantiated.Err? {
      return Err(Bytes("instantiate: ") + instantiated.error);
    }
    var guestModule := instantiated.value;
    MissingExportOrder(guestModule.exports);
    if "hasPerm" !in guestModule.exports {
      return Err(ExportNotFound("hasPerm"));
    }
    if "malloc" !in guestModule.exports {
      return Err(ExportNotFound("malloc"));
    }
    if "free" !in guestModule.exports {
      return Err(ExportNotFound("free"));
    }
    var runtime := new WasmRuntime(guestModule, database);
    r := Ok(runtime);
  }

  // ---------------------------------------------------------------------
  // The marshalling protocol as functions of memory
  // ---------------------------------------------------------------------

  const CANNOT_READ: GoString := Bytes("can not read memory")
  const NULL_TEXT: GoString := Bytes("null")
  /** Stands for the text of the error the runtime reports when the guest's malloc traps. */
  const MALLOC_TRAPPED: GoString := Bytes("malloc trapped")
  const MALLOC_FAILED: GoString := Bytes("calling malloc: ") + MALLOC_TRAPPED

  /**
   * readString: the descriptor at `ptr` holds a little-endian pointer and,
   * at `ptr + 4` (32-bit addition), a little-endian length; the result is
   * exactly that many bytes from that pointer.
   */
  function ReadString(mem: seq<byte>, ptr: u32): (r: Result<GoString, GoString>)
    ensures r.Err? ==> r.error == CANNOT_READ
  {
    match LoadU32(mem, ptr) {
      case None => Err(CANNOT_READ)
      case Some(p) =>
        match LoadU32(mem, Wrap32(ptr + 4)) {
          case None => Err(CANNOT_READ)
          case Some(l) =>
            match Load(mem, p, l) {
              case None => Err(CANNOT_READ)
              case Some(bytes) => Ok(bytes)
            }
        }
    }
  }

  /** readString succeeds exactly when the descriptor and the bytes it names are all inside memory. */
  lemma ReadStringSucceeds(mem: seq<byte>, ptr: u32)
    ensures ReadString(mem, ptr).Ok? <==>
      LoadU32(mem, ptr).Some? && LoadU32(mem, Wrap32(ptr + 4)).Some? &&
      LoadU32(mem, ptr).value + LoadU32(mem, Wrap32(ptr + 4)).value <= |mem|
    ensures ReadString(mem, ptr).Ok? ==>
      |ReadString(mem, ptr).value| == LoadU32(mem, Wrap32(ptr + 4)).value
  {
  }

  /**
   * The address sendString writes its zero byte to, `uint32(len(str)+1) - 1`
   * in 32-bit arithmetic: the string's length (mod 2^32), whatever pointer
   * malloc returned.
   */
  function TerminatorAddress(n: nat): (a: u32)
    ensures a == n % U32_LIMIT
  {
    Wrap32(Wrap32(n + 1) + U32_LIMIT - 1)
  }

  /**
   * Memory after sendString has written `str` at `ptr`: the bytes when they
   * fit, then the zero byte at TerminatorAddress when that is inside memory.
   */
  function SendEffect(mem: seq<byte>, ptr: u32, str: GoString): (r: seq<byte>)
    ensures |r| == |mem|
    ensures TerminatorAddress(|str|) < |mem| ==> r[TerminatorAddress(|str|)] == 0
  {
    Store(Store(mem, ptr, str), TerminatorAddress(|str|), [0])
  }

  /**
   * sendString changes no byte but those of the string, when they fit, and
   * the one at TerminatorAddress.
   */
  lemma SendEffectElsewhere(mem: seq<byte>, ptr: u32, str: GoString, i: nat)
    requires i < |mem| && i != TerminatorAddress(|str|)
    ensures SendEffect(mem, ptr, str)[i] ==
      if ptr + |str| <= |mem| && ptr <= i < ptr + |str| then str[i - ptr] else mem[i]
  {
  }

  /**
   * The bytes of `str` land at [ptr, ptr + len(str)) when they fit and the
   * stray terminator misses them; memory too small for them is left as it was
   * apart from that terminator.
   */
  lemma SendEffectPayload(mem: seq<byte>, ptr: u32, str: GoString)
    requires !(ptr <= TerminatorAddress(|str|) < ptr + |str|)
    ensures ptr + |str| <= |mem| ==> Load(SendEffect(mem, ptr, str), ptr, |str|) == Some(str)
    ensures ptr + |str| > |mem| ==> SendEffect(mem, ptr, str) == Store(mem, TerminatorAddress(|str|), [0])
  {
    if ptr + |str| <= |mem| {
      LoadAfterStore(mem, ptr, str);
      LoadBesideStore(Store(mem, ptr, str), TerminatorAddress(|str|), [0], ptr, |str|);
    }
  }

  /**
   * The round trip of the two encodings: once `str` has been sent to `ptr`,
   * a descriptor placed at `d` beside it and naming (ptr, len(str)) reads
   * back exactly `str`, provided the stray terminator misses the payload,
   * which for 0 < ptr <= len(str) it does not (TerminatorOverwritesPayload).
   */
  lemma SendThenReadString(mem: seq<byte>, ptr: u32, str: GoString, d: u32)
    requires |mem| <= U32_LIMIT && ptr + |str| <= |mem|
    requires !(ptr <= TerminatorAddress(|str|) < ptr + |str|)
    requires d + 8 <= |mem| && (d + 8 <= ptr || ptr + |str| <= d)
    ensures ReadString(Store(SendEffect(mem, ptr, str), d, EncodeU32Le(ptr) + EncodeU32Le(|str|)), d) == Ok(str)
  {
    var sent := SendEffect(mem, ptr, str);
    var after := Store(sent, d, EncodeU32Le(ptr) + EncodeU32Le(|str|));
    SendEffectPayload(mem, ptr, str);
    LoadBesideStore(sent, d, EncodeU32Le(ptr) + EncodeU32Le(|str|), ptr, |str|);
    DescriptorLoads(sent, d, ptr, |str|);
  }

  /** A descriptor stored at `d` loads back as its pointer word and, four bytes on, its length word. */
  lemma DescriptorLoads(mem: seq<byte>, d: nat, p: u32, l: u32)
    requires d + 8 <= |mem| <= U32_LIMIT
    ensures LoadU32(Store(mem, d, EncodeU32Le(p) + EncodeU32Le(l)), d) == Some(p)
    ensures Wrap32(d + 4) == d + 4
    ensures LoadU32(Store(mem, d, EncodeU32Le(p) + EncodeU32Le(l)), d + 4) == Some(l)
  {
    var after := Store(mem, d, EncodeU32Le(p) + EncodeU32Le(l));
    assert after[d..d + 4] == EncodeU32Le(p);
    assert after[d + 4..d + 8] == EncodeU32Le(l);
    DecodeEncodeU32(p);
    DecodeEncodeU32(l);
  }

  /**
   * The stray terminator: sending "A" to address 4 of eight bytes of ones
   * zeroes byte 1 instead of byte 5, so a guest reading the zero-terminated
   * buffer at 4 never finds the end of "A".
   */
  lemma TerminatorMisplaced()
    ensures SendEffect([1, 1, 1, 1, 1, 1, 1, 1], 4, [65]) == [1, 0, 1, 1, 65, 1, 1, 1]
    ensures CStringAt(SendEffect([1, 1, 1, 1, 1, 1, 1, 1], 4, [65]), 4) == None
  {
    var after := SendEffect([1, 1, 1, 1, 1, 1, 1, 1], 4, [65]);
    assert after == [1, 0, 1, 1, 65, 1, 1, 1];
    assert CStringAt(after, 8) == None;
    assert CStringAt(after, 7) == None;
    assert CStringAt(after, 6) == None;
    assert CStringAt(after, 5) == None;
  }

  /**
   * The stray terminator can also land inside the payload: "AB" sent to
   * address 1 of sixteen bytes of nines has its second byte zeroed, so a
   * descriptor at 8 naming (1, 2) reads back "A" followed by a zero byte.
   */
  lemma TerminatorOverwritesPayload()
    ensures var mem: seq<byte> := [9, 9, 9, 9, 9, 9, 9, 9, 9, 9, 9, 9, 9, 9, 9, 9];
      SendEffect(mem, 1, [65, 66])[..4] == [9, 65, 0, 9] &&
      ReadString(Store(SendEffect(mem, 1, [65, 66]), 8, EncodeU32Le(1) + EncodeU32Le(2)), 8) == Ok([65, 0])
  {
    var mem: seq<byte> := [9, 9, 9, 9, 9, 9, 9, 9, 9, 9, 9, 9, 9, 9, 9, 9];
    var sent := SendEffect(mem, 1, [65, 66]);
    assert sent[..4] == [9, 65, 0, 9];
    var after := Store(sent, 8, EncodeU32Le(1) + EncodeU32Le(2));
    DescriptorLoads(sent, 8, 1, 2);
    assert after[1..3] == [65, 0];
  }

  /** Memory after sending `str` with the terminator where the protocol puts it: right after the bytes. */
  function TerminatedSendEffect(mem: seq<byte>, ptr: u32, str: GoString): seq<byte>
  {
    Store(mem, ptr, str + [0])
  }

  /** With the terminator at ptr + len(str), a guest reading the zero-terminated buffer gets `str` back. */
  lemma TerminatedSendRoundTrip(mem: seq<byte>, ptr: u32, str: GoString)
    requires ptr + |str| + 1 <= |mem| && 0 !in str
    ensures CStringAt(TerminatedSendEffect(mem, ptr, str), ptr) == Some(str)
  {
    var after := TerminatedSendEffect(mem, ptr, str);
    assert after[ptr..ptr + |str|] == str;
    CStringOfTerminated(after, ptr, str);
  }

  /**
   * With the terminator at ptr + len(str), a descriptor beside the sent
   * buffer and naming (ptr, len(str)) reads `str` back for every pointer,
   * including those the stray terminator corrupts.
   */
  lemma TerminatedSendThenReadString(mem: seq<byte>, ptr: u32, str: GoString, d: u32)
    requires |mem| <= U32_LIMIT && ptr + |str| + 1 <= |mem|
    requires d + 8 <= |mem| && (d + 8 <= ptr || ptr + |str| + 1 <= d)
    ensures ReadString(Store(TerminatedSendEffect(mem, ptr, str), d, EncodeU32Le(ptr) + EncodeU32Le(|str|)), d) == Ok(str)
  {
    var sent := TerminatedSendEffect(mem, ptr, str);
    assert sent[ptr..ptr + |str|] == str;
    LoadBesideStore(sent, d, EncodeU32Le(ptr) + EncodeU32Le(|str|), ptr, |str|);
    DescriptorLoads(sent, d, ptr, |str|);
  }

  /**
   * The value getData sends for `key`: the stored one, or the text null when
   * there is none. The guest cannot tell a missing key from a stored null.
   */
  function Lookup(database: map<GoString, GoString>, key: GoString): (v: GoString)
    ensures key in database ==> v == database[key]
    ensures v == NULL_TEXT <==> key !in database || database[key] == NULL_TEXT
  {
    if key in database then database[key] else NULL_TEXT
  }

  const SENDING_FAILED: GoString := Bytes("sending string: ") + MALLOC_FAILED

  /**
   * The switch on the guest's result: 1 is true, 0 is false, any other
   * value is the error "wasm returned N"; a failed call is "calling wasm: ...".
   */
  function Permission(call: Result<u32, GoString>): (r: Result<bool, GoString>)
    ensures r == Ok(true) <==> call == Ok(1)
    ensures r == Ok(false) <==> call == Ok(0)
    ensures call.Err? ==> r == Err(Bytes("calling wasm: ") + call.error)
  {
    match call {
      case Err(e) => Err(Bytes("calling wasm: ") + e)
      case Ok(code) =>
        if code == 1 then Ok(true)
        else if code == 0 then Ok(false)
        else Err(Bytes("wasm returned ") + Bytes(NatText(code)))
    }
  }

  /** How the runtime reports the guest's outcome: the i32 result as its 32-bit pattern, a trap as an error. */
  function CallResult(o: Guest.Outcome): (r: Result<u32, GoString>)
    ensures r.Ok? <==> o.Returned?
    ensures r.Ok? ==> AsSigned(r.value) == o.code
  {
    match o
    case Returned(code) => Ok(AsUnsigned(code))
    case Trapped(reason) => Err(Bytes(reason))
  }

  /**
   * Memory after getData answered the first |ptrs| lookups of `keys`, in
   * order: each key is read from the memory the sends before it left, and its
   * value (or null) is sent to the pointer malloc returned for it. None when
   * a key cannot be read.
   */
  function Replay(database: map<GoString, GoString>, mem: seq<byte>, keys: seq<u32>, ptrs: seq<u32>): (r: Option<seq<byte>>)
    requires |ptrs| <= |keys|
    ensures r.Some? ==> |r.value| == |mem|
    ensures ptrs == [] ==> r == Some(mem)
    decreases |ptrs|
  {
    if ptrs == [] then Some(mem)
    else match Replay(database, mem, keys, ptrs[..|ptrs| - 1]) {
      case None => None
      case Some(before) =>
        match ReadString(before, keys[|ptrs| - 1]) {
          case Err(_) => None
          case Ok(key) => Some(SendEffect(before, ptrs[|ptrs| - 1], Lookup(database, key)))
        }
    }
  }

  /**
   * One call of getData at `keyPointer`, from memory, live regions and
   * allocator log (mem0, live0, calls0) to (mem1, live1, calls1). An
   * unreadable key panics with "can not read memory" and changes nothing; a
   * malloc of |value| + 1 bytes that traps panics with its error, changing
   * no memory and no region, with the attempt logged. Otherwise one malloc of
   * |value| + 1 bytes returned a fresh region inside memory, the value (or
   * null) was sent there as sendString sends it, and the region's pointer is
   * returned; the buffer stays with the guest.
   */
  ghost predicate Served(database: map<GoString, GoString>, keyPointer: u32, r: Result<u32, GoString>,
                         mem0: seq<byte>, live0: map<u32, nat>, calls0: seq<Guest.AllocatorCall>,
                         mem1: seq<byte>, live1: map<u32, nat>, calls1: seq<Guest.AllocatorCall>)
  {
    match ReadString(mem0, keyPointer)
    case Err(_) => r == Err(CANNOT_READ) && mem1 == mem0 && live1 == live0 && calls1 == calls0
    case Ok(key) =>
      var value := Lookup(database, key);
      match r
      case Err(e) =>
        e == MALLOC_FAILED && mem1 == mem0 && live1 == live0 && calls1 == calls0 + [Guest.MallocTrapped(|value| + 1)]
      case Ok(p) =>
        p + |value| + 1 <= |mem0| && Guest.Disjoint(live0, p, |value| + 1) && live1 == live0[p := |value| + 1] &&
        calls1 == calls0 + [Guest.MallocCall(|value| + 1, p)] && mem1 == SendEffect(mem0, p, value)
  }

  /**
   * How a getData call at `keyPointer` on memory `mem` panics, the calls it
   * made being those of `calls` from index m on: an unreadable key panics
   * before any call, and a readable one after a single malloc, of the size
   * of its value's buffer, that trapped.
   */
  ghost predicate LookupFailed(database: map<GoString, GoString>, mem: seq<byte>, keyPointer: u32,
                               calls: seq<Guest.AllocatorCall>, m: nat, e: GoString)
  {
    match ReadString(mem, keyPointer)
    case Err(_) => e == CANNOT_READ && |calls| == m
    case Ok(key) =>
      e == MALLOC_FAILED && |calls| == m + 1 && calls[m] == Guest.MallocTrapped(|Lookup(database, key)| + 1)
  }

  /** A getData call only calls malloc, once, unless the key is unreadable; it panics exactly as LookupFailed says. */
  lemma ServedGrows(database: map<GoString, GoString>, keyPointer: u32, r: Result<u32, GoString>,
                    mem0: seq<byte>, live0: map<u32, nat>, calls0: seq<Guest.AllocatorCall>,
                    mem1: seq<byte>, live1: map<u32, nat>, calls1: seq<Guest.AllocatorCall>)
    requires Served(database, keyPointer, r, mem0, live0, calls0, mem1, live1, calls1)
    ensures Guest.Grows(calls0, live0, calls1, live1)
    ensures r.Err? ==> mem1 == mem0 && calls1[..|calls0|] == calls0
    ensures r.Err? ==> LookupFailed(database, mem0, keyPointer, calls1, |calls0|, r.error)
    ensures r.Ok? ==> ReadString(mem0, keyPointer).Ok?
    ensures r.Ok? ==>
      var value := Lookup(database, ReadString(mem0, keyPointer).value);
      calls1 == calls0 + [Guest.MallocCall(|value| + 1, r.value)] && mem1 == SendEffect(mem0, r.value, value)
  {
    Guest.GrowsRefl(calls0, live0);
    if ReadString(mem0, keyPointer).Ok? {
      var value := Lookup(database, ReadString(mem0, keyPointer).value);
      if r.Ok? {
        Guest.GrowsByMalloc(calls0, live0, calls0, live0, |value| + 1, r.value);
      } else {
        Guest.GrowsByTrap(calls0, live0, calls0, live0, |value| + 1);
        assert calls1[..|calls0|] == calls0;
      }
    }
  }

  /** Replaying one more lookup sends its value on top of the memory the earlier ones left. */
  lemma ReplayStep(database: map<GoString, GoString>, mem0: seq<byte>, keys: seq<u32>, ptrs: seq<u32>,
                   p: u32, mem1: seq<byte>)
    requires |ptrs| < |keys| && Replay(database, mem0, keys, ptrs) == Some(mem1) && ReadString(mem1, keys[|ptrs|]).Ok?
    ensures Replay(database, mem0, keys, ptrs + [p]) ==
      Some(SendEffect(mem1, p, Lookup(database, ReadString(mem1, keys[|ptrs|]).value)))
  {
    var extended := ptrs + [p];
    assert extended[..|extended| - 1] == ptrs && extended[|extended| - 1] == p;
  }

  /**
   * One more getData call, for the next key of `keys`, extends the replay
   * and the malloc log when it answers, and names its panic otherwise.
   */
  lemma AnswerStep(database: map<GoString, GoString>, mem0: seq<byte>, calls0: seq<Guest.AllocatorCall>,
                   keys: seq<u32>, returned: seq<u32>, r: Result<u32, GoString>,
                   mem1: seq<byte>, live1: map<u32, nat>, calls1: seq<Guest.AllocatorCall>,
                   mem2: seq<byte>, live2: map<u32, nat>, calls2: seq<Guest.AllocatorCall>)
    requires |returned| < |keys| && |calls1| == |calls0| + |returned|
    requires Guest.MallocsFrom(calls1, |calls0|, returned) && Replay(database, mem0, keys, returned) == Some(mem1)
    requires Served(database, keys[|returned|], r, mem1, live1, calls1, mem2, live2, calls2)
    ensures Guest.Grows(calls1, live1, calls2, live2)
    ensures r.Err? ==> mem2 == mem1 && Guest.MallocsFrom(calls2, |calls0|, returned)
    ensures r.Err? ==> LookupFailed(database, mem1, keys[|returned|], calls2, |calls0| + |returned|, r.error)
    ensures r.Ok? ==> |calls2| == |calls0| + |returned| + 1
    ensures r.Ok? ==> Guest.MallocsFrom(calls2, |calls0|, returned + [r.value])
    ensures r.Ok? ==> Replay(database, mem0, keys, returned + [r.value]) == Some(mem2)
  {
    ServedGrows(database, keys[|returned|], r, mem1, live1, calls1, mem2, live2, calls2);
    if r.Ok? {
      var value := Lookup(database, ReadString(mem1, keys[|returned|]).value);
      Guest.MallocsFromStep(calls1, |calls0|, returned, |value| + 1, r.value);
      ReplayStep(database, mem0, keys, returned, r.value, mem1);
    } else {
      Guest.MallocsFromExtended(calls1, |calls0|, returned, calls2[|calls1|..]);
      assert calls2 == calls1 + calls2[|calls1|..];
    }
  }

  /**
   * One call of the guest's hasPerm as the host carries it out, from memory
   * mem0 to mem1, with the allocator calls made during it starting at index
   * n of `calls` and `returned` the pointers getData handed back: getData
   * answered the first |returned| lookups, each with the buffer of its own
   * malloc, and memory is their replay. A shorter run ended in getData's
   * panic on the next lookup, as LookupFailed says; a full run made no
   * further call and ended in the guest's own outcome on that memory. The
   * call's allocator calls are exactly those of `calls` from index n on.
   */
  ghost predicate CallOf(database: map<GoString, GoString>, userID: int, meetingID: int, permPtr: u32,
                         guest: Guest.Program, mem0: seq<byte>, mem1: seq<byte>,
                         calls: seq<Guest.AllocatorCall>, n: nat, returned: seq<u32>, r: Result<u32, GoString>)
  {
    |returned| <= |guest.lookups| && Guest.MallocsFrom(calls, n, returned) &&
    Replay(database, mem0, guest.lookups, returned) == Some(mem1) &&
    if |returned| < |guest.lookups| then
      r.Err? && LookupFailed(database, mem1, guest.lookups[|returned|], calls, n + |returned|, r.error)
    else
      |calls| == n + |returned| && r == CallResult(guest.decide(userID, meetingID, permPtr, returned, mem1))
  }

  /**
   * The host grants the permission exactly when getData answered every
   * lookup and the guest then decided 1, and denies it exactly when the
   * guest decided 0: a guest that never decides 1 is never granted.
   */
  lemma GrantedOnlyByGuest(database: map<GoString, GoString>, userID: int, meetingID: int, permPtr: u32,
                           guest: Guest.Program, mem0: seq<byte>, mem1: seq<byte>,
                           calls: seq<Guest.AllocatorCall>, n: nat, returned: seq<u32>, r: Result<u32, GoString>)
    requires CallOf(database, userID, meetingID, permPtr, guest, mem0, mem1, calls, n, returned, r)
    ensures Permission(r) == Ok(true) <==>
      |returned| == |guest.lookups| && guest.decide(userID, meetingID, permPtr, returned, mem1) == Guest.Returned(1)
    ensures Permission(r) == Ok(false) <==>
      |returned| == |guest.lookups| && guest.decide(userID, meetingID, permPtr, returned, mem1) == Guest.Returned(0)
  {
    if |returned| == |guest.lookups| {
      var o := guest.decide(userID, meetingID, permPtr, returned, mem1);
      assert r == CallResult(o);
    }
  }

  /**
   * A whole hasPerm run, from allocator log calls0 and memory mem0 to the
   * final log, live map and memory, after the permission name went into
   * buffer b: the log is the malloc of b, the guest's call (mallocs alone,
   * each region obtained still live), and the free of b, and every region
   * live before the run is live still; the guest's call is described by
   * CallOf on the memory the send left.
   */
  ghost predicate HasPermRun(database: map<GoString, GoString>, userID: int, meetingID: int, perm: GoString,
                             guest: Guest.Program, calls0: seq<Guest.AllocatorCall>, live0: map<u32, nat>,
                             mem0: seq<byte>, b: Guest.Buffer,
                             calls: seq<Guest.AllocatorCall>, live: map<u32, nat>, mem: seq<byte>,
                             returned: seq<u32>, call: Result<u32, GoString>)
  {
    b.size == |perm| + 1 && BracketedLog(calls0, live0, b, calls, live)
    && CallOf(database, userID, meetingID, b.ptr, guest, SendEffect(mem0, b.ptr, perm), mem,
              calls[..|calls| - 1], |calls0| + 1, returned, call)
  }

  /**
   * The log `calls` extends calls0 by the malloc of b, further mallocs
   * whose regions (when they returned one) are still live, and the free of
   * b; the live regions `live` keep every region of live0.
   */
  ghost predicate BracketedLog(calls0: seq<Guest.AllocatorCall>, live0: map<u32, nat>, b: Guest.Buffer,
                               calls: seq<Guest.AllocatorCall>, live: map<u32, nat>)
  {
    var n := |calls0|;
    |calls| >= n + 2 && calls[..n] == calls0
    && calls[n] == Guest.MallocCall(b.size, b.ptr)
    && calls[|calls| - 1] == Guest.FreeCall(b.ptr, b.size)
    && Guest.OnlyMallocs(calls[n + 1..|calls| - 1])
    && (forall i | n < i < |calls| - 1 :: calls[i].MallocCall? ==> calls[i].ptr in live)
    && b.ptr !in live && Guest.Keeps(live0, live)
  }

  /** Malloc of b, a growth by mallocs, and the free of b give a BracketedLog. */
  lemma BracketedLogSteps(calls0: seq<Guest.AllocatorCall>, live0: map<u32, nat>, b: Guest.Buffer,
                          callsA: seq<Guest.AllocatorCall>, liveA: map<u32, nat>,
                          callsB: seq<Guest.AllocatorCall>, liveB: map<u32, nat>,
                          calls: seq<Guest.AllocatorCall>, live: map<u32, nat>)
    requires b.ptr !in live0
    requires liveA == live0[b.ptr := b.size] && callsA == calls0 + [Guest.MallocCall(b.size, b.ptr)]
    requires Guest.Grows(callsA, liveA, callsB, liveB)
    requires live == liveB - {b.ptr} && calls == callsB + [Guest.FreeCall(b.ptr, b.size)]
    ensures BracketedLog(calls0, live0, b, calls, live)
  {
    var n := |calls0|;
    assert calls[..n] == calls0 by {
      assert calls[..n] == callsB[..|callsA|][..n];
    }
    assert calls[n] == callsB[..|callsA|][n];
    assert calls[n + 1..|calls| - 1] == callsB[|callsA|..];
    forall i | n < i < |calls| - 1
      ensures calls[i].MallocCall? ==> calls[i].ptr in live
    {
      assert calls[i] == callsB[i];
    }
  }

  /** The three steps of hasPerm (send, the guest's call, release) make up a HasPermRun. */
  lemma HasPermSteps(database: map<GoString, GoString>, userID: int, meetingID: int, perm: GoString,
                     guest: Guest.Program, calls0: seq<Guest.AllocatorCall>, live0: map<u32, nat>, mem0: seq<byte>,
                     b: Guest.Buffer, callsA: seq<Guest.AllocatorCall>, liveA: map<u32, nat>,
                     callsB: seq<Guest.AllocatorCall>, liveB: map<u32, nat>, memB: seq<byte>,
                     returned: seq<u32>, call: Result<u32, GoString>,
                     calls: seq<Guest.AllocatorCall>, live: map<u32, nat>)
    requires b.size == |perm| + 1 && b.ptr !in live0
    requires liveA == live0[b.ptr := b.size] && callsA == calls0 + [Guest.MallocCall(b.size, b.ptr)]
    requires Guest.Grows(callsA, liveA, callsB, liveB)
    requires CallOf(database, userID, meetingID, b.ptr, guest, SendEffect(mem0, b.ptr, perm), memB, callsB, |callsA|, returned, call)
    requires live == liveB - {b.ptr} && calls == callsB + [Guest.FreeCall(b.ptr, b.size)]
    ensures HasPermRun(database, userID, meetingID, perm, guest, calls0, live0, mem0, b, calls, live, memB, returned, call)
  {
    assert calls[..|calls| - 1] == callsB;
    BracketedLogSteps(calls0, live0, b, callsA, liveA, callsB, liveB, calls, live);
  }

  /** An unexpected result code is reported, and its number can be read back from the message. */
  lemma UnexpectedCodeNamed(code: u32)
    requires code > 1
    ensures Permission(Ok(code)).Err?
    ensures var m := Permission(Ok(code)).error;
      |m| > 14 && m[..14] == Bytes("wasm returned ") && Atoi(m[14..]) == Some(code)
  {
    var m := Permission(Ok(code)).error;
    assert m[14..] == Bytes(IntText(code));
    AtoiOfIntText(code);
  }

  // ---------------------------------------------------------------------
  // wasmRuntime
  // ---------------------------------------------------------------------

  class WasmRuntime {
    const inst: Guest.Instance
    const database: map<GoString, GoString>

    ghost predicate Valid()
      reads this, inst
    {
      inst.Valid()
    }

    constructor (inst: Guest.Instance, database: map<GoString, GoString>)
      ensures this.inst == inst && this.database == database
    {
      this.inst := inst;
      this.database := database;
    }

    /**
     * sendString: malloc(len(str)+1), copy the bytes to the new region and
     * write a zero byte at TerminatorAddress. Write failures are ignored.
     * The returned buffer carries what the free closure passes to free.
     */
    method SendString(str: GoString) returns (r: Result<Guest.Buffer, GoString>)
      requires Valid()
      modifies inst, inst.memory
      ensures Valid()
      ensures r.Err? ==> r.error == MALLOC_FAILED && inst.live == old(inst.live)
                         && inst.calls == old(inst.calls) + [Guest.MallocTrapped(|str| + 1)]
                         && inst.memory[..] == old(inst.memory[..])
      ensures r.Ok? ==> r.value.size == |str| + 1 && r.value.ptr + r.value.size <= inst.memory.Length
                        && Guest.Disjoint(old(inst.live), r.value.ptr, r.value.size)
      ensures r.Ok? ==> inst.live == old(inst.live)[r.value.ptr := r.value.size]
                        && inst.calls == old(inst.calls) + [Guest.MallocCall(r.value.size, r.value.ptr)]
                        && inst.memory[..] == SendEffect(old(inst.memory[..]), r.value.ptr, str)
    {
      var length := |str| + 1;
      var reserved := inst.Malloc(length);
      if reserved.None? {
        return Err(MALLOC_FAILED);
      }
      var ptr := reserved.value;
      var _ := inst.Write(ptr, str);
      var _ := inst.WriteByte(Wrap32(Wrap32(length) + U32_LIMIT - 1), 0);
      r := Ok(Guest.Buffer(ptr, length));
    }

    /** The free closure returned by sendString. */
    method Release(b: Guest.Buffer)
      requires Valid()
      modifies inst
      ensures Valid()
      ensures inst.live == old(inst.live) - {b.ptr} && inst.calls == old(inst.calls) + [Guest.FreeCall(b.ptr, b.size)]
    {
      inst.Free(b.ptr, b.size);
    }

    /**
     * The getData import: decode the key named by the descriptor, look it up
     * (null when absent) and send the value. The buffer is not released: it
     * now belongs to the guest. A failure is a panic, carried in Err.
     */
    method GetData(keyPointer: u32) returns (r: Result<u32, GoString>)
      requires Valid()
      modifies inst, inst.memory
      ensures Valid()
      ensures Served(database, keyPointer, r, old(inst.memory[..]), old(inst.live), old(inst.calls),
                     inst.memory[..], inst.live, inst.calls)
    {
      var key := ReadString(inst.memory[..], keyPointer);
      if key.Err? {
        return Err(key.error);
      }
      var value := Lookup(database, key.value);
      var sent := SendString(value);
      if sent.Err? {
        return Err(sent.error);
      }
      r := Ok(sent.value.ptr);
    }

    /**
     * The guest's calls of getData at `keys`, in order, until one panics.
     * The host frees none of the buffers getData allocates: they pass to the
     * guest.
     */
    method AnswerLookups(keys: seq<u32>) returns (returned: seq<u32>, failure: Option<GoString>)
      requires Valid()
      modifies inst, inst.memory
      ensures Valid()
      ensures Guest.Grows(old(inst.calls), old(inst.live), inst.calls, inst.live)
      ensures |returned| <= |keys| && Guest.MallocsFrom(inst.calls, |old(inst.calls)|, returned)
      ensures Replay(database, old(inst.memory[..]), keys, returned) == Some(inst.memory[..])
      ensures failure.None? <==> |returned| == |keys|
      ensures failure.None? ==> |inst.calls| == |old(inst.calls)| + |returned|
      ensures failure.Some? ==>
        LookupFailed(database, inst.memory[..], keys[|returned|], inst.calls, |old(inst.calls)| + |returned|, failure.value)
    {
      returned := [];
      Guest.GrowsRefl(inst.calls, inst.live);
      var i := 0;
      while i < |keys|
        invariant 0 <= i <= |keys| && |returned| == i
        invariant Valid()
        invariant Guest.Grows(old(inst.calls), old(inst.live), inst.calls, inst.live)
        invariant |inst.calls| == |old(inst.calls)| + i
        invariant Guest.MallocsFrom(inst.calls, |old(inst.calls)|, returned)
        invariant Replay(database, old(inst.memory[..]), keys, returned) == Some(inst.memory[..])
      {
        ghost var calls1, live1, mem1 := inst.calls, inst.live, inst.memory[..];
        var got := GetData(keys[i]);
        AnswerStep(database, old(inst.memory[..]), old(inst.calls), keys, returned, got,
                   mem1, live1, calls1, inst.memory[..], inst.live, inst.calls);
        Guest.GrowsTrans(old(inst.calls), old(inst.live), calls1, live1, inst.calls, inst.live);
        if got.Err? {
          return returned, Some(got.error);
        }
        returned := returned + [got.value];
        i := i + 1;
      }
      failure := None;
    }

    /**
     * The call of the guest's hasPerm: the guest calls getData at each of its
     * lookups, and a panic there aborts the call; then it decides.
     */
    method CallHasPerm(userID: int, meetingID: int, permPtr: u32, guest: Guest.Program)
      returns (r: Result<u32, GoString>, returned: seq<u32>)
      requires Valid()
      modifies inst, inst.memory
      ensures Valid()
      ensures Guest.Grows(old(inst.calls), old(inst.live), inst.calls, inst.live)
      ensures CallOf(database, userID, meetingID, permPtr, guest, old(inst.memory[..]), inst.memory[..],
                     inst.calls, |old(inst.calls)|, returned, r)
    {
      var failure;
      returned, failure := AnswerLookups(guest.lookups);
      if failure.Some? {
        return Err(failure.value), returned;
      }
      match guest.decide(userID, meetingID, permPtr, returned, inst.memory[..]) {
        case Returned(code) => r := Ok(AsUnsigned(code));
        case Trapped(reason) => r := Err(Bytes(reason));
      }
    }

    /**
     * HasPerm: send the permission name, call the guest, free the permission
     * buffer on every path once it was sent, and map the result. `call` is
     * what the guest's hasPerm gave, the call CallOf describes.
     */
    method HasPerm(userID: int, meetingID: int, perm: GoString, guest: Guest.Program)
      returns (r: Result<bool, GoString>, ghost permBuffer: Option<Guest.Buffer>,
               ghost call: Result<u32, GoString>, ghost returned: seq<u32>)
      requires Valid()
      modifies inst, inst.memory
      ensures Valid()
      ensures permBuffer.None? ==>
        r == Err(SENDING_FAILED) && inst.live == old(inst.live)
        && inst.calls == old(inst.calls) + [Guest.MallocTrapped(|perm| + 1)] && inst.memory[..] == old(inst.memory[..])
      ensures permBuffer.Some? ==>
        HasPermRun(database, userID, meetingID, perm, guest, old(inst.calls), old(inst.live), old(inst.memory[..]),
                   permBuffer.value, inst.calls, inst.live, inst.memory[..], returned, call)
        && r == Permission(call)
    {
      var sent := SendString(perm);
      if sent.Err? {
        r := Err(Bytes("sending string: ") + sent.error);
        permBuffer, call, returned := None, Err([]), [];
        return;
      }
      var b := sent.value;
      permBuffer := Some(b);
      ghost var callsA, liveA := inst.calls, inst.live;
      var result, got := CallHasPerm(userID, meetingID, b.ptr, guest);
      call, returned := result, got;
      ghost var callsB, liveB, memory := inst.calls, inst.live, inst.memory[..];
      Release(b);
      assert inst.memory[..] == memory;
      HasPermSteps(database, userID, meetingID, perm, guest, old(inst.calls), old(inst.live), old(inst.memory[..]),
                   b, callsA, liveA, callsB, liveB, memory, returned, call, inst.calls, inst.live);
      r := Permission(result);
    }
  }
}
