# WebAssembly permission bridge: the host side

The repository asks a WebAssembly guest module whether a user may use a
permission in a meeting. The decision logic lives in the guest; three hosts
load it and speak the same wire protocol: Go (`main.go`), JavaScript
(`index.js`) and Python (`has_perm.py`). This project models the host side
of that protocol on a linear memory of bytes:

- **Encoding A, host to guest.** The host calls the guest's `malloc` for
  `len + 1` bytes, copies the text there and writes a zero byte. It hands over
  the pointer.
- **Encoding B, guest to host.** The guest passes the address of an 8-byte
  descriptor: a little-endian 32-bit pointer, then a little-endian 32-bit
  length. The host reads exactly that many bytes, with a bounds check.
- **The `getData` callback.** It decodes the key, looks it up in the database,
  falls back to the text `null` and sends the value back with Encoding A.
- **Result mapping.** The guest's integer becomes true, false or an error.
- **Argument checks.** Go's `parseArgs` and the Python script's argv-length
  check.

The modules:

- `LinearMemory` (linear_memory.dfy): bytes, 32-bit words, little-endian
  loads, stores and zero-terminated reads as functions on `seq<byte>`.
- `Guest` (guest.dfy): the guest instance as a class. It has a memory array,
  an allocator given by contract and a log of the `malloc`/`free` calls the
  host makes, a `malloc` that traps included. The guest's `hasPerm` is abstract: a list of descriptor
  addresses it looks up through `getData`, then a decision function of the
  ids, the pointers and the final memory.
- `Decimal` (decimal.dfy): base-ten text of integers, as Go's `%d` and
  JavaScript template literals print them.
- `Utf8` (utf8.dfy): UTF-8 encoding, as in section 3 of RFC 3629, which the
  JavaScript `TextEncoder` produces.
- `GoHost`, `JsHost` and `PyHost`: one module per host. The parts that change
  memory are methods of a class over the instance. The rest are functions,
  each with lemmas that compare it with the other hosts.

Allocator ownership follows the code:

- The Go host frees the permission buffer on every path once it was sent.
  Buffers `getData` returns pass to the guest.
- The JavaScript and Python hosts free nothing. Each method's contract states
  that the host issues no `free`: its log holds only `malloc` calls, and no
  region it obtained is dropped from the live set.
- Every failure the hosts report after a `malloc` trap is tied, in the log,
  to that trapped call and its size.

Where the hosts differ, the model keeps the difference and proves it:

- Go writes the terminator at an absolute address.
- JavaScript sends the text `undefined` for a missing key, and `{}` for the
  key `__proto__`, which the lookup finds on the object's prototype.
- JavaScript has no error case for unexpected result codes. It reads them as
  "has not".
- Python moves text one code point per byte (Latin-1).
- Python rounds a misaligned descriptor down to a multiple of 4. JavaScript
  throws on one. Go reads it where it is.

## Model

| member | source | states |
|---|---|---|
| `LinearMemory.DecodeEncodeU32` | main.go:211-215 | a 32-bit word written little-endian loads back unchanged |
| `LinearMemory.EncodeDecodeU32` | main.go:211-215 | every four bytes are the little-endian encoding of the word they load as |
| `LinearMemory.Load` | main.go:219 | memory.Read succeeds exactly when [offset, offset+count) is inside memory, and then returns count bytes |
| `LinearMemory.LoadU32` | main.go:211-215 | memory.ReadUint32Le succeeds exactly when the four bytes are inside memory, and the word read is the one those bytes encode little-endian |
| `LinearMemory.Store` | main.go:204 | a write that fits replaces exactly the bytes at [offset, offset+len) and keeps every other byte; one that does not fit changes nothing |
| `LinearMemory.LoadAfterStore` | main.go:204 | bytes written inside memory are read back unchanged |
| `LinearMemory.LoadBesideStore` | main.go:204-205 | a write leaves every byte range it does not overlap as it was |
| `LinearMemory.LoadU32AfterStore` | main.go:211 | a word stored inside memory is loaded back unchanged |
| `LinearMemory.CStringAt` | main.go:205 | a guest reading a zero-terminated buffer gets bytes that are in memory at the offset, contain no zero and are followed by a zero |
| `LinearMemory.CStringOfTerminated` | has_perm.py:46-48 | zero-free bytes followed by a zero byte are read back whole by that guest |
| `Guest.Instance.constructor` | has_perm.py:18 | a new instance has the module's memory image, no live allocation and an empty call log |
| `Guest.Instance.Malloc` | main.go:194 | a successful malloc returns a region inside memory that overlaps no live region, records it as live and logs the call; a trap logs the attempt with its size and changes no region |
| `Guest.Ended` | has_perm.py:25 | the call of an export returns exactly when the guest returned, with its code; a trap becomes the host's error for its reason (a RuntimeError in JavaScript, index.js:35, and Python) |
| `Guest.Instance.Free` | main.go:201 | free removes the region from the live set and logs the call |
| `Guest.Instance.Write` | main.go:204 | memory.Write copies the data when all of it fits and otherwise writes nothing, reporting which |
| `Guest.Instance.WriteByte` | main.go:205 | memory.WriteByte writes one byte when the address is inside memory, reporting whether it was |
| `Decimal.NatText` | main.go:168 | the decimal text of a natural is non-empty, all digits, with no leading zero |
| `Decimal.IntText` | index.js:44 | the decimal text of an integer starts with '-' exactly when it is negative |
| `GoHost.DigitsValue` | main.go:39 | a byte string has a digit value exactly when it is a non-empty run of ASCII digits |
| `GoHost.Atoi` | main.go:39 | strconv.Atoi accepts only values in the range of Go's `int`, taken to be 64 bits wide |
| `GoHost.DigitsValueOfNatText` | main.go:39 | the digits of a natural number read back as that number |
| `GoHost.AtoiOfIntText` | main.go:39-44 | every 64-bit integer printed in base ten is read back by Atoi |
| `GoHost.AtoiOfNegativeText` | main.go:39-44 | a negative 64-bit integer printed with its minus sign is read back by Atoi |
| `GoHost.ParseArgs` | main.go:34-50 | success needs at least four arguments and returns args[3] verbatim as the permission; every error is the usage text, the not-an-int message or the empty-args panic |
| `GoHost.ParseArgsTooFew` | main.go:35-37 | fewer than four arguments give the usage text naming args[0], or an index panic when there are none |
| `GoHost.ParseArgsNotInt` | main.go:39-47 | a non-integer args[1] or args[2] gives the one message "USERID has to be int" |
| `GoHost.ParseArgsRoundTrip` | main.go:39-49 | two 64-bit ids printed in base ten and any permission parse back to themselves; extra arguments are ignored |
| `GoHost.FirstMissing` | main.go:123-136 | the result is None exactly when every required export is present, else the first required name that is missing |
| `GoHost.MissingExportOrder` | main.go:123-136 | exports are checked in the order hasPerm, then malloc, then free |
| `GoHost.NewWasmRuntime` | main.go:103-143 | a host-module or instantiation error is wrapped; a missing export yields "can not find function <first missing>"; otherwise a new runtime over that instance and database |
| `GoHost.ReadStringSucceeds` | main.go:210-225 | readString succeeds exactly when the descriptor's two words and the bytes they name are inside memory, and returns exactly `length` bytes |
| `GoHost.ReadString` | main.go:210-225 | every failure of readString is "can not read memory" |
| `GoHost.TerminatorAddress` | main.go:205 | the zero byte goes to address len(str) mod 2^32, whatever pointer malloc returned |
| `GoHost.SendEffect` | main.go:204-205 | sending keeps memory's size and leaves a zero at the terminator address whenever that address is inside memory |
| `GoHost.SendEffectElsewhere` | main.go:204-205 | every byte other than the terminator's is str's byte inside [ptr, ptr+len) when the payload fits, and otherwise unchanged |
| `GoHost.SendEffectPayload` | main.go:204-205 | the bytes of str land at [ptr, ptr+len) when they fit and the terminator misses them; otherwise only the stray terminator changes memory |
| `GoHost.SendThenReadString` | main.go:191-225 | when the stray terminator at address len(str) falls outside [ptr, ptr+len), a descriptor naming (ptr, len) of a sent string reads the string back exactly; TerminatorOverwritesPayload shows the case this excludes |
| `GoHost.DescriptorLoads` | main.go:211-215 | a descriptor stored at d loads back as its pointer word and, four bytes on, its length word |
| `GoHost.TerminatorMisplaced` | main.go:205 | sending "A" to address 4 zeroes byte 1, and a zero-terminated read at 4 never ends |
| `GoHost.TerminatedSendRoundTrip` | main.go:204-205 | with the terminator at ptr+len, a zero-terminated read returns the sent string |
| `GoHost.TerminatorOverwritesPayload` | main.go:205 | sending [65, 66] to ptr 1 in sixteen bytes of 9 leaves [9, 65, 0, 9]: the stray zero overwrites payload byte 2, and the descriptor (1, 2) reads [65, 0] |
| `GoHost.TerminatedSendThenReadString` | main.go:204-205 | with the terminator at ptr+len, a descriptor (ptr, len) that does not overlap the message reads the string back exactly, for every pointer |
| `GoHost.Lookup` | main.go:178-181 | a present key gives its stored value; the result is "null" exactly when the key is missing or its stored value is "null" |
| `GoHost.CallResult` | main.go:157-159 | the call succeeds exactly when the guest returned, and its unsigned result reads back as the guest's signed code |
| `GoHost.Replay` | main.go:172-189 | replaying no lookup leaves memory as it was, and a replay keeps memory's size |
| `GoHost.ServedGrows` | main.go:172-189 | a getData call only allocates: no call on an unreadable key, otherwise exactly one malloc of len+1 bytes; an answer is that malloc and the send of the value there, and a panic is as LookupFailed says, the trapped malloc of the value's size after a readable key |
| `GoHost.ReplayStep` | main.go:183 | replaying one more lookup sends its value, read from the memory the earlier sends left, to the new pointer |
| `GoHost.AnswerStep` | main.go:172-189 | one more getData call extends the malloc log by the returned pointer and the replay by its send, or leaves memory as it was and panics as LookupFailed says: no call after an unreadable key, one trapped malloc of the value's size after a readable one |
| `GoHost.GrantedOnlyByGuest` | main.go:157-169 | the host grants exactly when getData answered every lookup and the guest decided 1, and denies exactly when it decided 0 |
| `GoHost.BracketedLogSteps` | main.go:151-157 | the malloc of the permission buffer, a call that only allocates, and the deferred free form a log that starts with that malloc, ends with its free and has between only mallocs, each returned region still live; every region live before the send is still live after the free |
| `GoHost.HasPermSteps` | main.go:145-170 | send, call and release together give a run whose guest call is described by CallOf on the memory the send left |
| `GoHost.Permission` | main.go:157-169 | 1 maps to true, 0 maps to false, and a failed call becomes "calling wasm: …" |
| `GoHost.UnexpectedCodeNamed` | main.go:167-168 | any other code is an error "wasm returned N" from which N reads back |
| `GoHost.WasmRuntime.SendString` | main.go:191-208 | malloc of exactly len+1 bytes; the new memory is the bytes at ptr plus the zero at the absolute address; a malloc failure is the trapped malloc of len+1 bytes in the log, with memory and live regions unchanged; the buffer carries ptr and length for free |
| `GoHost.WasmRuntime.Release` | main.go:200-202 | the free closure frees the same ptr with the same length |
| `GoHost.WasmRuntime.GetData` | main.go:172-189 | an unreadable key panics with "can not read memory" and changes nothing; a trapped malloc of the value's len+1 bytes panics, is logged and changes no memory or region; otherwise one malloc of len+1 bytes returns a region that was not live, holding the stored value or "null" as sendString sends it, and the host issues no free for it |
| `GoHost.WasmRuntime.AnswerLookups` | main.go:172-189 | the getData calls for the guest's lookups, in order: one malloc per answered lookup, returning exactly the pointers handed back, memory equal to their replay, and the panic of the first failing lookup, with no call after an unreadable key and one trapped malloc of the value's size after a readable one |
| `GoHost.WasmRuntime.CallHasPerm` | main.go:157-160 | the call is CallOf: getData answered a prefix of the lookups, returned[i] is the pointer of the i-th malloc of the call, memory is the replay of the answered sends, and the log ends there on a full run, whose result is the guest's decide on the final memory with the permission pointer; a short run ends in a getData panic as LookupFailed says, with the trapped malloc of the next value's size as its last call when the key was readable |
| `GoHost.WasmRuntime.HasPerm` | main.go:145-170 | after a successful send to b the log is b's malloc, the call's mallocs (each returned region still live) and b's free, and every region live before the call is live still; the call is CallOf with b.ptr as permission pointer, starting from the memory the send left; the result is the switch on that call; a failed send is "sending string: …" with the trapped malloc of len+1 bytes logged and nothing else changed |
| `Utf8.EncodeChar` | index.js:51 | a scalar value takes one to four bytes, one exactly when it is ASCII, and contains a zero byte exactly when it is NUL |
| `Utf8.Encode` | index.js:51 | the encoding is as long as the text exactly when it is ASCII and has no zero byte when the text has no NUL |
| `Utf8.EncodeAppend` | index.js:51 | encoding str + "\x00" is the encoding of str followed by the encoding of "\x00" |
| `Utf8.EncodeAscii` | index.js:51 | ASCII text encodes to its character codes, one byte each |
| `Utf8.EncodeTerminated` | index.js:51 | the message of str + "\x00" is the encoding of str followed by exactly one zero byte |
| `JsHost.ReadString` | index.js:58-66 | every failure of read_string is a RangeError |
| `JsHost.ReadStringAgreesWithGo` | index.js:58-63 | on a 4-aligned descriptor below 2^31, read_string returns exactly Go's bytes and fails exactly when Go fails |
| `JsHost.ReadStringMisaligned` | index.js:59 | a descriptor address that is not a multiple of 4 always throws |
| `JsHost.ValueText` | index.js:16 | a present key gives its stored text; an absent one gives "{}" exactly for `__proto__`, and "undefined" otherwise |
| `JsHost.MissingKeySendsUndefined` | index.js:16-17 | for a missing key the bytes sent are not the "null" the Go host sends |
| `JsHost.FixedMissingKeySendsNull` | index.js:16-17 | with the corrected value text a missing key sends exactly Go's "null" bytes |
| `JsHost.FixedAgreesOnPresentKeys` | index.js:16 | for a present key the corrected and the written value texts are both the stored text |
| `JsHost.SentTextRoundTrip` | index.js:50-55 | bytes written by send_string are read back whole by a guest that stops at the zero byte |
| `JsHost.Report` | index.js:37-47 | has_perm returns undefined exactly when an exception was caught |
| `JsHost.UnexpectedCodeReadsAsDenied` | index.js:38-42 | every code other than 1 reads as "has not", like 0, while Go reports every code other than 0 and 1 as an error, negative codes included since they read as u32 values above 1 |
| `JsHost.Attr` | index.js:37-42 | the word is "has" exactly for a result equal to 1, and "has not" for every other result |
| `JsHost.Message` | index.js:51 | the message is the encoding of str followed by exactly one zero byte |
| `JsHost.SentGrows` | index.js:50-56 | send_string calls malloc exactly once and frees nothing |
| `JsHost.ServedGrows` | index.js:14-19 | a getData call only allocates; an answer is the malloc of the value's message and its copy to the returned pointer; a throw leaves memory unchanged and is a RangeError on an unreadable key with no call, a RangeError after a malloc at 2^31 or above, or the trap of the one malloc of the message's size |
| `JsHost.Replay` | index.js:14-19 | replaying no lookup leaves memory as it was, and a replay keeps memory's size |
| `JsHost.ReplayStep` | index.js:17 | replaying one more lookup copies its value's message, read from the memory the earlier sends left, to the new pointer |
| `JsHost.AnswerStep` | index.js:14-19 | one more getData call extends the malloc log by the returned pointer and the replay by its send, or says how it threw |
| `JsHost.GrantedOnlyByGuest` | index.js:35-44 | the report is "has" exactly when getData answered every lookup and the guest decided 1, and "has not" exactly when the guest decided any other code |
| `JsHost.Bridge.constructor` | index.js:25-28 | the closures see this instance and this database |
| `JsHost.Bridge.SendString` | index.js:50-56 | malloc of exactly the encoded length of str + "\x00" returns a region that was not live, and the message is copied there whole; a pointer read as negative throws RangeError with memory untouched and the region still allocated; a trap is the malloc of the message's size logged as trapped, with memory and live regions unchanged |
| `JsHost.Bridge.PlaceMessage` | index.js:53-54 | a pointer below 2^31 gets the whole message copied to it and is returned; one read as negative throws RangeError with memory untouched |
| `JsHost.Bridge.GetData` | index.js:14-19 | an unreadable key throws RangeError and changes nothing; otherwise the value text is sent as send_string sends it, its one malloc returning a region or logged as trapped |
| `JsHost.Bridge.AnswerLookups` | index.js:14-19 | the getData calls for the guest's lookups, in order: one malloc per answered lookup, returning exactly the pointers handed back, memory equal to their replay, and how the first failing lookup threw, its trapped or too-high malloc being the last call logged |
| `JsHost.Bridge.CallHasPerm` | index.js:35 | the call is CallOf: getData answered a prefix of the lookups, returned[i] is the pointer of the i-th malloc of the call, memory is the replay of the answered sends, and the result is a getData exception on a short run, ending with that lookup's malloc when its key was readable, or the guest's decide on the final memory with the permission pointer, with no further call |
| `JsHost.Bridge.HasPerm` | index.js:30-48 | the result is the report of the call; a failed send is the call's exception, after one malloc of the message's size that trapped or returned a pointer of 2^31 or above; after a send to p the log starts with the permission's malloc and the call is CallOf with p as permission pointer, starting from the memory the send left; the host issues no free |
| `PyHost.Latin1Text` | has_perm.py:59 | chr of each byte gives one character per byte, each below 256 |
| `PyHost.Latin1BytesOfText` | has_perm.py:47 | ord after chr gives back the original bytes |
| `PyHost.Latin1TextOfBytes` | has_perm.py:59 | chr after ord gives back the original text when every character fits a byte |
| `PyHost.Latin1Prefix` | has_perm.py:46-47 | the send loop stops at the first character above 255, after a prefix that fits bytes |
| `PyHost.Latin1PrefixWhole` | has_perm.py:46-47 | the loop runs to the end exactly when the text is Latin-1 |
| `PyHost.ReadString` | has_perm.py:53-59 | a negative pointer raises OverflowError, any other failure IndexError, and the text read is Latin-1 |
| `PyHost.ReadStringAgreesWithGo` | has_perm.py:53-59 | on a 4-aligned descriptor below 2^31, read_string returns chr of Go's bytes and fails exactly when Go fails |
| `PyHost.ReadStringRoundsDown` | has_perm.py:54 | a misaligned descriptor is read from the multiple of 4 below it |
| `PyHost.ReadStringMisaligned` | has_perm.py:54-56 | a descriptor at 1 that Go reads as the byte 65 makes read_string raise IndexError |
| `PyHost.ReadUtf8AsLatin1` | has_perm.py:59 | UTF-8 text from the guest reads back as itself exactly when it is ASCII |
| `PyHost.SendBytesAgreeWithUtf8` | has_perm.py:47 | send_string writes the UTF-8 bytes exactly when the text is ASCII |
| `PyHost.ValueText` | has_perm.py:32-35 | a present key gives its stored text and an absent one "null"; when every stored text is ASCII so is the result |
| `PyHost.MissingKeySendsNull` | has_perm.py:32-35 | a missing key sends exactly the bytes the Go host sends |
| `PyHost.SendOutcome` | has_perm.py:39-50 | send_string succeeds exactly when the pointer reads as non-negative and the text is Latin-1, and then returns the pointer; every failure is OverflowError; no byte outside [ptr, ptr+len(str)] changes |
| `PyHost.SentTextRoundTrip` | has_perm.py:46-48 | the terminator sits at ptr+len(str) and a zero-terminated read returns ord of the text, which chr turns back into the text |
| `PyHost.OverflowLeavesPrefix` | has_perm.py:46-47 | a character above 255 at index k raises OverflowError with the k bytes before it written and every other byte, terminator included, untouched |
| `PyHost.Verdict` | has_perm.py:27 | has_perm returns True exactly for 1 and otherwise False; an exception propagates |
| `PyHost.UnexpectedCodeIsFalse` | has_perm.py:25-27 | a code other than 0 and 1 is False, where the Go host reports an error |
| `PyHost.ServedGrows` | has_perm.py:30-36 | a get_data call only allocates; an answer is the malloc of len(text)+1 bytes and what send_string leaves at the returned pointer; a raise is an unreadable key with no call, or one malloc of len(text)+1 bytes that trapped or whose send failed |
| `PyHost.Replay` | has_perm.py:30-36 | replaying no lookup leaves memory as it was, and a replay keeps memory's size |
| `PyHost.ReplayStep` | has_perm.py:36 | replaying one more lookup stores its value text, read from the memory the earlier sends left, at the new pointer |
| `PyHost.AnswerStep` | has_perm.py:30-36 | one more get_data call extends the malloc log by the returned pointer and the replay by its send, or says how it raised |
| `PyHost.GrantedOnlyByGuest` | has_perm.py:25-27 | has_perm returns True exactly when get_data answered every lookup and the guest decided 1, and False exactly when it decided any other code |
| `PyHost.CheckArgv` | has_perm.py:63-66 | the script stops exactly when argv has fewer than four entries, with status 1 and a usage line "Run: <argv[0]> …" (an IndexError when argv is empty) |
| `PyHost.ArgvCheckAgreesWithGo` | has_perm.py:64-66 | the script and Go's parseArgs refuse the same short argument lists |
| `PyHost.Host.constructor` | has_perm.py:7 | the database is loaded and no instance exists yet |
| `PyHost.Host.InitWasm` | has_perm.py:9-18 | a fresh instance with the module's memory image and no allocation replaces the old one |
| `PyHost.Host.SendString` | has_perm.py:39-50 | exactly one malloc of len(str)+1 bytes, and no free; when it returns, the region was not live and memory and result are SendOutcome's; when it traps, it is logged as trapped and memory and live regions are unchanged |
| `PyHost.Host.StoreText` | has_perm.py:45-48 | after malloc, result and memory are exactly SendOutcome's |
| `PyHost.Host.StoreCodes` | has_perm.py:46-47 | the loop stores ord of the characters before the first one above 255, and stops there |
| `PyHost.Host.GetData` | has_perm.py:30-36 | an unreadable key raises its read error and changes nothing; otherwise the stored text or "null" is sent as send_string sends it, its one malloc returning a region or logged as trapped |
| `PyHost.Host.AnswerLookups` | has_perm.py:30-36 | the get_data calls for the guest's lookups, in order: one malloc per answered lookup, returning exactly the pointers handed back, memory equal to their replay, and how the first failing lookup raised, its trapped or returned malloc being the last call logged |
| `PyHost.Host.CallHasPerm` | has_perm.py:25 | the call is CallOf: get_data answered a prefix of the lookups, returned[i] is the pointer of the i-th malloc of the call, and the result is a get_data exception on a short run, ending with that lookup's malloc when its key was readable, or the guest's decide on the replayed memory with the permission pointer, with no further call |
| `PyHost.Host.HasPerm` | has_perm.py:21-27 | on a fresh instance; the result is got == 1 of the call; a failed send is the call's exception, after the permission's one malloc, trapped or returned; after a send to p the log starts with the permission's malloc and the call is CallOf with p as permission pointer, from the memory the send left; the host issues no free |

## Left out

- The guest is abstract, and narrower than a real module: its allocator
  never writes memory; its `hasPerm` never writes memory, calls `malloc` or
  `free` on its own, and its lookups are fixed before the call rather than
  computed from what `getData` returned. So the hosts' contracts state what
  the host does (no `free` issued, one `malloc` per answer), not what a guest
  may do to the same regions.
- Runtime machinery: building the runtime, compiling and instantiating the
  module, closing the runtime and the `context` values. Go's `NewWasmRuntime`
  receives their outcomes as parameters. The guest module's code, its
  allocator's internals and its `hasPerm` are abstract.
- `module.Memory()` returning no memory in Go is not modelled: the instance
  always has one.
- The `sync.Mutex` in Go's `HasPerm`: calls are modelled as sequential.
- File and network I/O: `initDB`, `json.load`, `fetch`, reading `module.wasm`.
  The database and the module image are parameters.
- JSON serialisation: stored values are the texts `json.dumps`,
  `JSON.stringify` and Go's decoder give for them, taken as opaque.
- The text of the errors the runtimes themselves produce (a malloc trap, a
  panic inside `getData`, an exception thrown across the guest). These are
  constant placeholders or propagate unchanged.
- `TextDecoder`: the JavaScript `read_string` returns the bytes it would
  decode. Database keys are those bytes.
- The i32 truncation of malloc sizes of 2^31 bytes or more. The ids passed to
  the guest's `hasPerm` are handed to the decision function untruncated.
- JavaScript and Python never check for missing exports. In JavaScript an
  absent export reads as `undefined`, and calling it throws a TypeError; in
  Python looking it up raises an error. The model produces neither.
- JavaScript numbers of 10^21 and more print in exponent notation; `IntText`
  prints every integer in plain digits.
- Memory growth during a guest call: memory has a fixed size.
- Printing and exit codes after the argument check: the Go `main` and `run`,
  the JavaScript `console.error`, and the last lines of the Python script
  (`int` of the ids and the report line).
- PyHost.ReadString: wasmer's views are taken as checked. An index or slice
  past the end raises IndexError, a negative offset raises OverflowError and
  the 32-bit view's offset counts elements. The model states these as the
  views' behaviour; it does not derive them. Two slice cases are assumed
  and may differ from wasmer: an empty key (`view[:0]`, length 0) reads as
  the empty text, where wasmer may raise IndexError for an empty slice; and
  a length reaching past the end of memory raises IndexError, where wasmer
  may clamp the slice and return the shorter text.
- PyHost.Host.SendString: storing a code point above 255 into a byte view is
  taken to raise OverflowError after the earlier characters were stored.

## Findings

| source | as written | input that shows it | evidently intended | confidence | as-written member | corrected member |
|---|---|---|---|---|---|---|
| main.go:205 | `WriteByte(uint32(length)-1, 0)` writes the terminator at address len(str), not relative to ptr | "A" sent to ptr 4 in eight bytes of 1: byte 1 becomes 0, byte 5 stays 1, and a zero-terminated read at 4 never ends | the zero byte at ptr+len(str), as Encoding A requires | high; not executed | `GoHost.TerminatorMisplaced` | `GoHost.TerminatedSendRoundTrip` |
| main.go:205 | when 0 < ptr <= len(str) the stray zero lands inside the payload | [65, 66] sent to ptr 1 in sixteen bytes of 9: memory starts [9, 65, 0, 9], and the descriptor (1, 2) reads [65, 0] | the payload intact and the zero at ptr+len(str) | high; not executed | `GoHost.TerminatorOverwritesPayload` | `GoHost.TerminatedSendThenReadString` |
| index.js:16-17 | `JSON.stringify(database[key])` is `undefined` for a missing key, and `str + "\x00"` then sends the text "undefined" | any key absent from the database (`__proto__` sends "{}") | the literal text null for an absent key, as the other hosts send | high; not executed | `JsHost.MissingKeySendsUndefined` | `JsHost.FixedMissingKeySendsNull` |
