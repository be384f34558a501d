/**
 * The Python host (has_perm.py): a module-level `instance` that `init_wasm`
 * replaces on every `has_perm` call, and the functions `send_string`,
 * `read_string` and `get_data` that work on that instance's memory.
 *
 * Python strings are sequences of code points and the host moves them one
 * code point per byte: `send_string` stores `ord(c)` into a byte view, and
 * `read_string` turns every byte into `chr(b)`. That is Latin-1, which agrees
 * with UTF-8 only on ASCII text.
 *
 * Memory views follow wasmer's checked views: `uint32_view(offset=k)` counts
 * its offset in 4-byte elements, an index or slice past the end raises
 * IndexError, a negative offset and a stored value above 255 raise
 * OverflowError.
 */
module PyHost {
  import opened Outcomes
  import opened LinearMemory
  import Utf8
  import Guest
  import GoHost

  /** A raised exception, as far as the host can tell them apart. */
  datatype Exception = IndexError | OverflowError | RuntimeError(reason: string)

  /** Stands for the reason the engine gives when the guest's malloc traps. */
  const MALLOC_TRAPPED: string := "malloc trapped"

  predicate IsLatin1(s: string)
  {
    forall i | 0 <= i < |s| :: s[i] as int < 256
  }

  predicate IsAscii(s: string)
  {
    forall i | 0 <= i < |s| :: s[i] as int < 0x80
  }

  /** `chr` of each byte. */
  function Latin1Text(b: seq<byte>): (s: string)
    ensures |s| == |b| && IsLatin1(s)
  {
    seq(|b|, i requires 0 <= i < |b| => b[i] as char)
  }

  /** `ord` of each character, for text whose every code point fits a byte. */
  function Latin1Bytes(s: string): (b: seq<byte>)
    requires IsLatin1(s)
    ensures |b| == |s|
  {
    seq(|s|, i requires 0 <= i < |s| => s[i] as int as byte)
  }

  /** Bytes decoded with chr and encoded again with ord come back unchanged. */
  lemma Latin1BytesOfText(b: seq<byte>)
    ensures Latin1Bytes(Latin1Text(b)) == b
  {
  }

  /** Latin-1 text encoded with ord and decoded again with chr comes back unchanged. */
  lemma Latin1TextOfBytes(s: string)
    requires IsLatin1(s)
    ensures Latin1Text(Latin1Bytes(s)) == s
  {
  }

  /** The number of leading characters of `s` that fit a byte: the loop of send_string stops there. */
  function Latin1Prefix(s: string): (k: nat)
    ensures k <= |s| && IsLatin1(s[..k])
    ensures k < |s| ==> s[k] as int >= 256
  {
    if s == [] || s[0] as int >= 256 then 0
    else
      var k := 1 + Latin1Prefix(s[1..]);
      assert s[..k] == [s[0]] + s[1..][..k - 1];
      k
  }

  /** The prefix covers the whole text exactly when the text is Latin-1. */
  lemma Latin1PrefixWhole(s: string)
    ensures Latin1Prefix(s) == |s| <==> IsLatin1(s)
  {
    if Latin1Prefix(s) == |s| {
      assert s[..|s|] == s;
    }
  }

  /**
   * read_string: two words through a 32-bit view placed at element
   * `pointer // 4`, then `chr` of each of the `l` bytes at `p`. A negative
   * pointer makes a negative view offset; any read past the end raises.
   */
  function ReadString(mem: seq<byte>, pointer: i32): (r: Result<string, Exception>)
    ensures r.Err? ==> r.error == (if pointer < 0 then OverflowError else IndexError)
    ensures r.Ok? ==> IsLatin1(r.value)
  {
    if pointer < 0 then Err(OverflowError)
    else
      var base := pointer / 4 * 4;
      match LoadU32(mem, base) {
        case None => Err(IndexError)
        case Some(p) =>
          match LoadU32(mem, base + 4) {
            case None => Err(IndexError)
            case Some(l) =>
              match Load(mem, p, l) {
                case None => Err(IndexError)
                case Some(bytes) => Ok(Latin1Text(bytes))
              }
          }
      }
  }

  /**
   * On a 4-aligned descriptor below 2^31, read_string reads the bytes the Go
   * host's readString reads, one character per byte, and fails exactly when
   * that fails.
   */
  lemma ReadStringAgreesWithGo(mem: seq<byte>, pointer: u32)
    requires pointer < I32_LIMIT && pointer % 4 == 0
    ensures GoHost.ReadString(mem, pointer).Ok? ==> ReadString(mem, pointer) == Ok(Latin1Text(GoHost.ReadString(mem, pointer).value))
    ensures GoHost.ReadString(mem, pointer).Err? ==> ReadString(mem, pointer) == Err(IndexError)
  {
    assert pointer / 4 * 4 == pointer;
    assert Wrap32(pointer + 4) == pointer + 4;
  }

  /** A misaligned descriptor is read from the multiple of 4 below it. */
  lemma ReadStringRoundsDown(mem: seq<byte>, pointer: i32)
    requires pointer >= 0
    ensures ReadString(mem, pointer) == ReadString(mem, pointer - pointer % 4)
  {
    assert (pointer - pointer % 4) / 4 * 4 == pointer / 4 * 4;
  }

  /**
   * A descriptor at 1 whose words the Go host reads as (9, 1), naming the
   * byte 65: read_string reads the words at 0 instead, (0x900, 0x100), and
   * raises IndexError.
   */
  lemma ReadStringMisaligned()
    ensures var mem: seq<byte> := [0, 9, 0, 0, 0, 1, 0, 0, 0, 65, 0, 0];
      GoHost.ReadString(mem, 1) == Ok([65]) && ReadString(mem, 1) == Err(IndexError)
  {
    var mem: seq<byte> := [0, 9, 0, 0, 0, 1, 0, 0, 0, 65, 0, 0];
    assert mem[1..5] == [9, 0, 0, 0];
    assert mem[5..9] == [1, 0, 0, 0];
    assert mem[0..4] == [0, 9, 0, 0];
    assert mem[4..8] == [0, 1, 0, 0];
    assert Wrap32(1 + 4) == 5;
    assert mem[9..10] == [65];
  }

  /** Text the guest wrote as UTF-8 is read back as itself exactly when it is ASCII. */
  lemma ReadUtf8AsLatin1(s: string)
    ensures Latin1Text(Utf8.Encode(s)) == s <==> IsAscii(s)
  {
    if IsAscii(s) {
      Utf8.EncodeAscii(s);
    }
  }

  /** send_string writes the bytes a UTF-8 encoder would only for ASCII text. */
  lemma SendBytesAgreeWithUtf8(s: string)
    requires IsLatin1(s)
    ensures Latin1Bytes(s) == Utf8.Encode(s) <==> IsAscii(s)
  {
    if IsAscii(s) {
      Utf8.EncodeAscii(s);
    }
  }

  /** What get_data sends for `key`: `json.dumps` of the stored value, or "null" when the key is absent. */
  function ValueText(database: map<string, string>, key: string): (r: string)
    ensures key in database ==> r == database[key]
    ensures key !in database ==> r == "null"
    ensures (forall k | k in database :: IsAscii(database[k])) ==> IsAscii(r)
  {
    if key in database then database[key] else "null"
  }

  /** For an absent key get_data sends the very bytes the Go host sends. */
  lemma MissingKeySendsNull(database: map<string, string>, key: string)
    requires key !in database
    ensures IsLatin1(ValueText(database, key)) && Latin1Bytes(ValueText(database, key)) == GoHost.NULL_TEXT
  {
    var text := Latin1Bytes("null");
    forall i | 0 <= i < 4
      ensures text[i] == GoHost.NULL_TEXT[i]
    {
    }
  }

  /**
   * What send_string does once malloc returned `p`: the result and the new
   * memory. A negative pointer raises before anything is written; a code
   * point above 255 raises after the characters before it were stored, and
   * no terminator is written; otherwise the text and a zero byte right after
   * it are stored.
   */
  function SendOutcome(mem: seq<byte>, p: u32, str: string): (r: (Result<i32, Exception>, seq<byte>))
    ensures |r.1| == |mem|
    ensures r.0.Ok? <==> p < I32_LIMIT && IsLatin1(str)
    ensures r.0.Ok? ==> r.0.value == p
    ensures r.0.Err? ==> r.0.error == OverflowError
    ensures forall i | 0 <= i < |mem| && !(p <= i <= p + |str|) :: r.1[i] == mem[i]
  {
    Latin1PrefixWhole(str);
    if AsSigned(p) < 0 then (Err(OverflowError), mem)
    else
      var k := Latin1Prefix(str);
      if k < |str| then (Err(OverflowError), Store(mem, p, Latin1Bytes(str[..k])))
      else (Ok(AsSigned(p)), Store(mem, p, Latin1Bytes(str) + [0]))
  }

  /**
   * Text sent by send_string is read back whole by a guest that stops at the
   * zero byte, and that zero byte sits right after the text.
   */
  lemma SentTextRoundTrip(mem: seq<byte>, p: u32, str: string)
    requires p + |str| + 1 <= |mem|
    requires SendOutcome(mem, p, str).0.Ok?
    requires forall i | 0 <= i < |str| :: str[i] != '\0'
    ensures IsLatin1(str)
    ensures SendOutcome(mem, p, str).1[p + |str|] == 0
    ensures CStringAt(SendOutcome(mem, p, str).1, p) == Some(Latin1Bytes(str))
    ensures Latin1Text(CStringAt(SendOutcome(mem, p, str).1, p).value) == str
  {
    var bytes := Latin1Bytes(str);
    var after := SendOutcome(mem, p, str).1;
    assert after == Store(mem, p, bytes + [0]);
    assert after[p..p + |bytes|] == bytes;
    assert 0 !in bytes by {
      forall i | 0 <= i < |bytes|
        ensures bytes[i] != 0
      {
        assert bytes[i] == str[i] as int;
      }
    }
    CStringOfTerminated(after, p, bytes);
    Latin1TextOfBytes(str);
  }

  /**
   * A code point above 255 at index k stops send_string: the k bytes before
   * it are in memory and nothing else changed, not even the byte after them.
   */
  lemma OverflowLeavesPrefix(mem: seq<byte>, p: u32, str: string, k: nat)
    requires p < I32_LIMIT && p + |str| + 1 <= |mem|
    requires k < |str| && IsLatin1(str[..k]) && str[k] as int >= 256
    ensures SendOutcome(mem, p, str).0 == Err(OverflowError)
    ensures var after := SendOutcome(mem, p, str).1;
      after[p..p + k] == Latin1Bytes(str[..k]) &&
      forall i | 0 <= i < |mem| && !(p <= i < p + k) :: after[i] == mem[i]
  {
    assert Latin1Prefix(str) == k;
    var after := SendOutcome(mem, p, str).1;
    assert after[p..p + k] == Latin1Bytes(str[..k]);
  }

  /**
   * One call of send_string seen from outside: one malloc of |str| + 1
   * bytes and no free. Either the malloc trapped, and no memory and no
   * region changed, or it returned a region `p` that was not live, and
   * result and memory are SendOutcome's.
   */
  ghost predicate SendStep(str: string, r: Result<i32, Exception>,
                           mem0: seq<byte>, live0: map<u32, nat>, calls0: seq<Guest.AllocatorCall>,
                           mem1: seq<byte>, live1: map<u32, nat>, calls1: seq<Guest.AllocatorCall>)
  {
    |calls1| == |calls0| + 1 && calls1[..|calls0|] == calls0 &&
    match calls1[|calls0|]
    case MallocTrapped(size) =>
      size == |str| + 1 && r == Err(RuntimeError(MALLOC_TRAPPED)) && mem1 == mem0 && live1 == live0
    case MallocCall(size, p) =>
      size == |str| + 1 &&
      p + |str| + 1 <= |mem0| && Guest.Disjoint(live0, p, |str| + 1) && live1 == live0[p := |str| + 1] &&
      (r, mem1) == SendOutcome(mem0, p, str)
    case FreeCall(_, _) => false
  }

  /** A malloc of |str| + 1 bytes that returned `p`, followed by SendOutcome, is a send step. */
  lemma SendStepOfMalloc(str: string, r: Result<i32, Exception>,
                         mem0: seq<byte>, live0: map<u32, nat>, calls0: seq<Guest.AllocatorCall>,
                         mem1: seq<byte>, live1: map<u32, nat>, calls1: seq<Guest.AllocatorCall>, p: u32)
    requires calls1 == calls0 + [Guest.MallocCall(|str| + 1, p)]
    requires p + |str| + 1 <= |mem0| && Guest.Disjoint(live0, p, |str| + 1) && live1 == live0[p := |str| + 1]
    requires (r, mem1) == SendOutcome(mem0, p, str)
    ensures SendStep(str, r, mem0, live0, calls0, mem1, live1, calls1)
  {
    assert calls1[..|calls0|] == calls0;
  }

  /** A send step only allocates, exactly once. */
  lemma SendStepGrows(str: string, r: Result<i32, Exception>,
                      mem0: seq<byte>, live0: map<u32, nat>, calls0: seq<Guest.AllocatorCall>,
                      mem1: seq<byte>, live1: map<u32, nat>, calls1: seq<Guest.AllocatorCall>)
    requires SendStep(str, r, mem0, live0, calls0, mem1, live1, calls1)
    ensures Guest.Grows(calls0, live0, calls1, live1)
    ensures |calls1| == |calls0| + 1
  {
    Guest.GrowsRefl(calls0, live0);
    assert calls1 == calls0 + [calls1[|calls0|]];
    match calls1[|calls0|]
    case MallocTrapped(size) =>
      Guest.GrowsByTrap(calls0, live0, calls0, live0, size);
    case MallocCall(size, p) =>
      Guest.GrowsByMalloc(calls0, live0, calls0, live0, size, p);
  }

  /** The result of has_perm: `got == 1`; an exception propagates. */
  function Verdict(call: Result<i32, Exception>): (r: Result<bool, Exception>)
    ensures r.Ok? <==> call.Ok?
    ensures r.Err? ==> r.error == call.error
    ensures r.Ok? ==> (r.value <==> call.value == 1)
  {
    match call {
      case Err(e) => Err(e)
      case Ok(got) => Ok(got == 1)
    }
  }

  /**
   * has_perm has no error case for unexpected codes: every code other than 0
   * and 1 is False, where the Go host reports an error.
   */
  lemma UnexpectedCodeIsFalse(code: i32)
    requires code != 0 && code != 1
    ensures Verdict(Ok(code)) == Ok(false)
    ensures GoHost.Permission(Ok(AsUnsigned(code))).Err?
  {
  }

  /** A trap of the guest's exported function surfaces in the host as a RuntimeError with its reason. */
  const AsRuntimeError: string -> Exception := reason => RuntimeError(reason)

  /**
   * One call of get_data at `keyPointer`: read the key (its exception
   * propagates, changing nothing) and send its value text as send_string
   * does.
   */
  ghost predicate Served(database: map<string, string>, keyPointer: i32, r: Result<i32, Exception>,
                         mem0: seq<byte>, live0: map<u32, nat>, calls0: seq<Guest.AllocatorCall>,
                         mem1: seq<byte>, live1: map<u32, nat>, calls1: seq<Guest.AllocatorCall>)
  {
    match ReadString(mem0, keyPointer)
    case Err(e) => r == Err(e) && mem1 == mem0 && live1 == live0 && calls1 == calls0
    case Ok(key) => SendStep(ValueText(database, key), r, mem0, live0, calls0, mem1, live1, calls1)
  }

  /**
   * How get_data at `keyPointer` failed, given the memory mem0 it read, the
   * allocator log with m calls before it and the memory mem1 it left: the
   * key could not be read, and nothing changed; or one malloc of the
   * value's |text| + 1 bytes trapped, and no memory changed; or that malloc
   * returned a region that send_string then failed to fill, leaving what
   * SendOutcome leaves.
   */
  ghost predicate LookupFailed(database: map<string, string>, mem0: seq<byte>, keyPointer: i32,
                               calls: seq<Guest.AllocatorCall>, m: nat, mem1: seq<byte>, e: Exception)
  {
    match ReadString(mem0, keyPointer)
    case Err(e0) => e == e0 && |calls| == m && mem1 == mem0
    case Ok(key) =>
      var text := ValueText(database, key);
      |calls| == m + 1 &&
      match calls[m]
      case MallocTrapped(size) => size == |text| + 1 && e == RuntimeError(MALLOC_TRAPPED) && mem1 == mem0
      case MallocCall(size, p) => size == |text| + 1 && (Err(e), mem1) == SendOutcome(mem0, p, text)
      case FreeCall(_, _) => false
  }

  /**
   * A get_data call only allocates; when it answers, its one malloc returned
   * the pointer and memory is what send_string leaves there; when it
   * raises, LookupFailed says how.
   */
  lemma ServedGrows(database: map<string, string>, keyPointer: i32, r: Result<i32, Exception>,
                    mem0: seq<byte>, live0: map<u32, nat>, calls0: seq<Guest.AllocatorCall>,
                    mem1: seq<byte>, live1: map<u32, nat>, calls1: seq<Guest.AllocatorCall>)
    requires Served(database, keyPointer, r, mem0, live0, calls0, mem1, live1, calls1)
    ensures Guest.Grows(calls0, live0, calls1, live1)
    ensures r.Err? ==> LookupFailed(database, mem0, keyPointer, calls1, |calls0|, mem1, r.error)
    ensures r.Ok? ==> 0 <= r.value && ReadString(mem0, keyPointer).Ok?
    ensures r.Ok? ==>
      var text := ValueText(database, ReadString(mem0, keyPointer).value);
      calls1 == calls0 + [Guest.MallocCall(|text| + 1, r.value)] && mem1 == SendOutcome(mem0, r.value, text).1
  {
    match ReadString(mem0, keyPointer)
    case Err(_) =>
      Guest.GrowsRefl(calls0, live0);
    case Ok(key) =>
      var text := ValueText(database, key);
      SendStepGrows(text, r, mem0, live0, calls0, mem1, live1, calls1);
      assert calls1 == calls0 + [calls1[|calls0|]];
  }

  /**
   * Memory after get_data answered the first |ptrs| lookups of `keys`, in
   * order: each key is read from the memory the sends before it left, and
   * its value text is stored as send_string stores it at the pointer malloc
   * returned for it. None when a key cannot be read.
   */
  function Replay(database: map<string, string>, mem: seq<byte>, keys: seq<u32>, ptrs: seq<u32>): (r: Option<seq<byte>>)
    requires |ptrs| <= |keys|
    ensures r.Some? ==> |r.value| == |mem|
    ensures ptrs == [] ==> r == Some(mem)
    decreases |ptrs|
  {
    if ptrs == [] then Some(mem)
    else match Replay(database, mem, keys, ptrs[..|ptrs| - 1]) {
      case None => None
      case Some(before) =>
        match ReadString(before, AsSigned(keys[|ptrs| - 1])) {
          case Err(_) => None
          case Ok(key) => Some(SendOutcome(before, ptrs[|ptrs| - 1], ValueText(database, key)).1)
        }
    }
  }

  /** Replaying one more lookup sends its value text on top of the memory the earlier ones left. */
  lemma ReplayStep(database: map<string, string>, mem0: seq<byte>, keys: seq<u32>, ptrs: seq<u32>,
                   p: u32, mem1: seq<byte>)
    requires |ptrs| < |keys| && Replay(database, mem0, keys, ptrs) == Some(mem1)
    requires ReadString(mem1, AsSigned(keys[|ptrs|])).Ok?
    ensures Replay(database, mem0, keys, ptrs + [p]) ==
      Some(SendOutcome(mem1, p, ValueText(database, ReadString(mem1, AsSigned(keys[|ptrs|])).value)).1)
  {
    var extended := ptrs + [p];
    assert extended[..|extended| - 1] == ptrs && extended[|extended| - 1] == p;
  }

  /**
   * One more get_data call, for the next key of `keys`, extends the replay
   * and the malloc log when it answers, and says how it failed otherwise.
   */
  lemma AnswerStep(database: map<string, string>, mem0: seq<byte>, calls0: seq<Guest.AllocatorCall>,
                   keys: seq<u32>, returned: seq<u32>, r: Result<i32, Exception>,
                   mem1: seq<byte>, live1: map<u32, nat>, calls1: seq<Guest.AllocatorCall>,
                   mem2: seq<byte>, live2: map<u32, nat>, calls2: seq<Guest.AllocatorCall>)
    requires |returned| < |keys| && |calls1| == |calls0| + |returned|
    requires Guest.MallocsFrom(calls1, |calls0|, returned) && Replay(database, mem0, keys, returned) == Some(mem1)
    requires Served(database, AsSigned(keys[|returned|]), r, mem1, live1, calls1, mem2, live2, calls2)
    ensures Guest.Grows(calls1, live1, calls2, live2)
    ensures r.Err? ==> LookupFailed(database, mem1, AsSigned(keys[|returned|]), calls2, |calls0| + |returned|, mem2, r.error)
    ensures r.Ok? ==> 0 <= r.value && |calls2| == |calls0| + |returned| + 1
    ensures r.Ok? ==> Guest.MallocsFrom(calls2, |calls0|, returned + [r.value])
    ensures r.Ok? ==> Replay(database, mem0, keys, returned + [r.value]) == Some(mem2)
  {
    var k := AsSigned(keys[|returned|]);
    ServedGrows(database, k, r, mem1, live1, calls1, mem2, live2, calls2);
    if r.Ok? {
      var text := ValueText(database, ReadString(mem1, k).value);
      Guest.MallocsFromStep(calls1, |calls0|, returned, |text| + 1, r.value);
      ReplayStep(database, mem0, keys, returned, r.value, mem1);
    }
  }

  /**
   * One call of the guest's hasPerm as the host carries it out, from memory
   * mem0 to mem1, with the allocator calls made during it starting at index
   * n of `calls` and `returned` the pointers get_data handed back: get_data
   * answered the first |returned| lookups, each with the buffer of its own
   * malloc, and their replay is the memory the next step starts from. A
   * shorter run ended in the exception of the next get_data, as
   * LookupFailed describes; a full run ended in the guest's own outcome on
   * the replayed memory.
   */
  ghost predicate CallOf(database: map<string, string>, userID: int, meetingID: int, permPtr: u32,
                         guest: Guest.Program, mem0: seq<byte>, mem1: seq<byte>,
                         calls: seq<Guest.AllocatorCall>, n: nat, returned: seq<u32>, r: Result<i32, Exception>)
  {
    |returned| <= |guest.lookups| && Guest.MallocsFrom(calls, n, returned) &&
    Replay(database, mem0, guest.lookups, returned).Some? &&
    var answered := Replay(database, mem0, guest.lookups, returned).value;
    if |returned| < |guest.lookups| then
      r.Err? && LookupFailed(database, answered, AsSigned(guest.lookups[|returned|]), calls, n + |returned|, mem1, r.error)
    else
      mem1 == answered && |calls| == n + |returned| && r == Guest.Ended(guest.decide(userID, meetingID, permPtr, returned, mem1), AsRuntimeError)
  }

  /**
   * has_perm returns True exactly when get_data answered every lookup and
   * the guest then decided 1, and False exactly when the guest decided any
   * other code: a guest that never decides 1 never grants.
   */
  lemma GrantedOnlyByGuest(database: map<string, string>, userID: int, meetingID: int, permPtr: u32,
                           guest: Guest.Program, mem0: seq<byte>, mem1: seq<byte>,
                           calls: seq<Guest.AllocatorCall>, n: nat, returned: seq<u32>, r: Result<i32, Exception>)
    requires CallOf(database, userID, meetingID, permPtr, guest, mem0, mem1, calls, n, returned, r)
    ensures Verdict(r) == Ok(true) <==>
      |returned| == |guest.lookups| && guest.decide(userID, meetingID, permPtr, returned, mem1) == Guest.Returned(1)
    ensures Verdict(r) == Ok(false) <==>
      |returned| == |guest.lookups| && var o := guest.decide(userID, meetingID, permPtr, returned, mem1);
      o.Returned? && o.code != 1
  {
    if |returned| == |guest.lookups| {
      var o := guest.decide(userID, meetingID, permPtr, returned, mem1);
      assert r == Guest.Ended(o, AsRuntimeError);
    }
  }

  /** Why the script stops before calling has_perm. */
  datatype Stop = Usage(line: string, status: nat) | ArgvIndexError

  /**
   * The argument check of the script: with fewer than four argv entries it
   * prints the usage line naming argv[0] and exits with status 1.
   */
  function CheckArgv(argv: seq<string>): (r: Option<Stop>)
    ensures r.None? <==> |argv| >= 4
    ensures |argv| == 0 ==> r == Some(ArgvIndexError)
    ensures 0 < |argv| < 4 ==> r.Some? && r.value.Usage? && r.value.status == 1
    ensures 0 < |argv| < 4 ==> var line := r.value.line;
      |line| == |argv[0]| + 29 && line[..5] == "Run: " && line[5..5 + |argv[0]|] == argv[0]
  {
    if |argv| >= 4 then None
    else if |argv| == 0 then Some(ArgvIndexError)
    else
      var line := "Run: " + argv[0] + " USER_ID MEETING_ID PERM";
      assert line[5..5 + |argv[0]|] == argv[0];
      Some(Usage(line, 1))
  }

  /** The script and the Go host's parseArgs refuse the same short argument lists. */
  lemma ArgvCheckAgreesWithGo(argv: seq<string>, args: seq<GoHost.GoString>)
    requires |argv| == |args| < 4
    ensures CheckArgv(argv).Some? && GoHost.ParseArgs(args).Err?
    ensures |argv| == 0 <==> (CheckArgv(argv) == Some(ArgvIndexError) && GoHost.ParseArgs(args) == Err(GoHost.IndexOutOfRange))
  {
  }

  /**
   * The script's globals: the module file's bytes and exports, the database
   * (each value already the text `json.dumps` gives for it) and the current
   * instance, which does not exist before the first `init_wasm`.
   */
  class Host {
    const image: seq<byte>
    const exports: set<string>
    const heapBase: nat
    const database: map<string, string>
    var instance: Guest.Instance?

    /**
     * The module can be instantiated, and every stored text is ASCII, as
     * `json.dumps` escapes every other character by default.
     */
    ghost predicate Valid()
    {
      |image| <= U32_LIMIT && heapBase <= |image| &&
      forall key | key in database :: IsAscii(database[key])
    }

    /** An instance exists. */
    ghost predicate Ready()
      reads this, instance
    {
      instance != null && instance.Valid()
    }

    constructor (image: seq<byte>, exports: set<string>, heapBase: nat, database: map<string, string>)
      requires |image| <= U32_LIMIT && heapBase <= |image|
      requires forall key | key in database :: IsAscii(database[key])
      ensures Valid() && instance == null
      ensures this.image == image && this.exports == exports && this.heapBase == heapBase && this.database == database
    {
      this.image := image;
      this.exports := exports;
      this.heapBase := heapBase;
      this.database := database;
      instance := null;
    }

    /** init_wasm: a new instance of the module replaces the old one, which is left as it was. */
    method InitWasm()
      requires Valid()
      modifies this
      ensures Ready() && fresh(instance) && fresh(instance.memory)
      ensures instance.memory[..] == image && instance.exports == exports
      ensures instance.live == map[] && instance.calls == []
    {
      instance := new Guest.Instance(image, exports, heapBase);
    }

    /**
     * send_string: malloc `len(str) + 1` bytes, store `ord` of each character
     * at `ptr + i`, then a zero byte at `ptr + len(str)`. Nothing is freed.
     */
    method SendString(str: string) returns (r: Result<i32, Exception>)
      requires Ready()
      modifies instance, instance.memory
      ensures Ready()
      ensures SendStep(str, r, old(instance.memory[..]), old(instance.live), old(instance.calls),
                       instance.memory[..], instance.live, instance.calls)
      ensures Guest.Grows(old(instance.calls), old(instance.live), instance.calls, instance.live)
      ensures |instance.calls| == |old(instance.calls)| + 1
    {
      ghost var mem0, live0, calls0 := instance.memory[..], instance.live, instance.calls;
      var reserved := instance.Malloc(|str| + 1);
      if reserved.None? {
        r := Err(RuntimeError(MALLOC_TRAPPED));
        assert instance.calls[..|calls0|] == calls0;
        SendStepGrows(str, r, mem0, live0, calls0, instance.memory[..], instance.live, instance.calls);
        return;
      }
      var p := reserved.value;
      r := StoreText(p, str);
      SendStepOfMalloc(str, r, mem0, live0, calls0, instance.memory[..], instance.live, instance.calls, p);
      SendStepGrows(str, r, mem0, live0, calls0, instance.memory[..], instance.live, instance.calls);
    }

    /**
     * send_string once malloc returned `p`: the byte view at the pointer, the
     * loop over the characters, then the zero byte at `ptr + len(str)`.
     */
    method StoreText(p: u32, str: string) returns (r: Result<i32, Exception>)
      requires Ready() && p + |str| + 1 <= instance.memory.Length
      modifies instance.memory
      ensures (r, instance.memory[..]) == SendOutcome(old(instance.memory[..]), p, str)
    {
      ghost var mem0 := instance.memory[..];
      var pointer := AsSigned(p);
      if pointer < 0 {
        return Err(OverflowError);
      }
      var n := StoreCodes(pointer, str);
      if n < |str| {
        return Err(OverflowError);
      }
      assert str[..n] == str;
      Latin1PrefixWhole(str);
      ghost var written := instance.memory[..];
      instance.memory[pointer + |str|] := 0;
      assert instance.memory[..] == Store(written, pointer + |str|, [0]);
      StoreAdjacent(mem0, pointer, Latin1Bytes(str), [0]);
      r := Ok(pointer);
    }

    /**
     * The loop of send_string: `view[i] = ord(str[i])` for each i, stopping
     * at the first code point that does not fit a byte. Returns how many
     * bytes it stored.
     */
    method StoreCodes(pointer: nat, str: string) returns (n: nat)
      requires Ready() && pointer + |str| < instance.memory.Length
      modifies instance.memory
      ensures n == Latin1Prefix(str)
      ensures instance.memory[..] == Store(old(instance.memory[..]), pointer, Latin1Bytes(str[..n]))
    {
      var memory := instance.memory;
      n := 0;
      while n < |str| && str[n] as int < 256
        invariant 0 <= n <= |str| && IsLatin1(str[..n])
        invariant forall k | 0 <= k < memory.Length ::
          memory[k] == if pointer <= k < pointer + n then str[k - pointer] as int else old(memory[k])
      {
        memory[pointer + n] := str[n] as int;
        assert str[..n + 1] == str[..n] + [str[n]];
        n := n + 1;
      }
      assert memory[..] == Store(old(memory[..]), pointer, Latin1Bytes(str[..n]));
    }

    /** The getData import: read the key, send the stored text or "null", return the pointer. */
    method GetData(keyPointer: i32) returns (r: Result<i32, Exception>)
      requires Valid() && Ready()
      modifies instance, instance.memory
      ensures Ready()
      ensures Served(database, keyPointer, r, old(instance.memory[..]), old(instance.live), old(instance.calls),
                     instance.memory[..], instance.live, instance.calls)
    {
      var key := ReadString(instance.memory[..], keyPointer);
      if key.Err? {
        return Err(key.error);
      }
      var value := ValueText(database, key.value);
      r := SendString(value);
    }

    /**
     * The get_data calls the guest makes during hasPerm, one per key
     * pointer, in order, until one raises (`failure`) or all are answered.
     */
    method AnswerLookups(keys: seq<u32>) returns (returned: seq<u32>, failure: Option<Exception>)
      requires Valid() && Ready()
      modifies instance, instance.memory
      ensures Ready()
      ensures Guest.Grows(old(instance.calls), old(instance.live), instance.calls, instance.live)
      ensures |returned| <= |keys| && Guest.MallocsFrom(instance.calls, |old(instance.calls)|, returned)
      ensures Replay(database, old(instance.memory[..]), keys, returned).Some?
      ensures failure.None? <==> |returned| == |keys|
      ensures failure.None? ==> |instance.calls| == |old(instance.calls)| + |returned|
      ensures failure.None? ==> Replay(database, old(instance.memory[..]), keys, returned) == Some(instance.memory[..])
      ensures failure.Some? ==>
        LookupFailed(database, Replay(database, old(instance.memory[..]), keys, returned).value, AsSigned(keys[|returned|]),
                     instance.calls, |old(instance.calls)| + |returned|, instance.memory[..], failure.value)
    {
      returned := [];
      Guest.GrowsRefl(instance.calls, instance.live);
      var i := 0;
      while i < |keys|
        invariant 0 <= i <= |keys| && |returned| == i
        invariant Ready()
        invariant Guest.Grows(old(instance.calls), old(instance.live), instance.calls, instance.live)
        invariant |instance.calls| == |old(instance.calls)| + i
        invariant Guest.MallocsFrom(instance.calls, |old(instance.calls)|, returned)
        invariant Replay(database, old(instance.memory[..]), keys, returned) == Some(instance.memory[..])
      {
        ghost var calls1, live1, mem1 := instance.calls, instance.live, instance.memory[..];
        var got := GetData(AsSigned(keys[i]));
        AnswerStep(database, old(instance.memory[..]), old(instance.calls), keys, returned, got,
                   mem1, live1, calls1, instance.memory[..], instance.live, instance.calls);
        Guest.GrowsTrans(old(instance.calls), old(instance.live), calls1, live1, instance.calls, instance.live);
        if got.Err? {
          return returned, Some(got.error);
        }
        returned := returned + [got.value];
        i := i + 1;
      }
      failure := None;
    }

    /**
     * The call of the exported hasPerm; an exception raised by get_data
     * propagates out of the guest, a trap becomes a RuntimeError.
     */
    method CallHasPerm(userID: int, meetingID: int, permPointer: i32, guest: Guest.Program)
      returns (r: Result<i32, Exception>, returned: seq<u32>)
      requires Valid() && Ready()
      modifies instance, instance.memory
      ensures Ready()
      ensures Guest.Grows(old(instance.calls), old(instance.live), instance.calls, instance.live)
      ensures CallOf(database, userID, meetingID, AsUnsigned(permPointer), guest, old(instance.memory[..]),
                     instance.memory[..], instance.calls, |old(instance.calls)|, returned, r)
    {
      var failure;
      returned, failure := AnswerLookups(guest.lookups);
      if failure.Some? {
        return Err(failure.value), returned;
      }
      r := Guest.Ended(guest.decide(userID, meetingID, AsUnsigned(permPointer), returned, instance.memory[..]), AsRuntimeError);
    }

    /**
     * has_perm: a fresh instance, the permission sent, the guest called, and
     * `got == 1` returned. Nothing is freed: every allocation the new
     * instance made, the permission's and one per answered lookup, is never
     * passed to free.
     */
    method HasPerm(userID: int, meetingID: int, perm: string, guest: Guest.Program)
      returns (r: Result<bool, Exception>, ghost sentTo: Option<u32>, ghost call: Result<i32, Exception>,
               ghost returned: seq<u32>)
      requires Valid()
      modifies this
      ensures Ready() && fresh(instance)
      ensures r == Verdict(call)
      ensures Guest.OnlyMallocs(instance.calls)
      ensures forall i | 0 <= i < |instance.calls| :: instance.calls[i].MallocCall? ==> instance.calls[i].ptr in instance.live
      ensures sentTo.None? ==>
        call.Err? && SendStep(perm, call, image, map[], [], instance.memory[..], instance.live, instance.calls)
      ensures sentTo.Some? ==>
        var p := sentTo.value;
        p < I32_LIMIT && IsLatin1(perm) && |instance.calls| >= 1 && instance.calls[0] == Guest.MallocCall(|perm| + 1, p)
        && CallOf(database, userID, meetingID, p, guest, SendOutcome(image, p, perm).1, instance.memory[..],
                  instance.calls, 1, returned, call)
    {
      InitWasm();
      var sent := SendString(perm);
      if sent.Err? {
        sentTo, call, returned := None, sent, [];
        return Err(sent.error), sentTo, call, returned;
      }
      assert |instance.calls| == 1;
      sentTo := Some(sent.value);
      ghost var callsA, liveA := instance.calls, instance.live;
      var result, got := CallHasPerm(userID, meetingID, sent.value, guest);
      Guest.GrowsTrans([], map[], callsA, liveA, instance.calls, instance.live);
      call, returned := result, got;
      r := Verdict(result);
    }
  }
}
