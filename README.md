# PowerTabOutputStream in Dafny

This project models `PowerTabOutputStream`, the writer that serialises Power Tab
documents in the MFC archive format. It wraps a `std::ostream` and keeps the
archive's two identity tables: class ids to indices, and object pointers to
indices. It also keeps a running map count and the last Power Tab error. On top of
these it offers:

- a state check that reports a sticky failure;
- fixed-width raw writes (`operator<<`);
- a count-prefixed vector writer (`WriteVector`), which sends every element
  through `WriteObject` and stops at the first failed check;
- a "small vector" writer (`WriteSmallVector`), which writes one count byte and
  then copies the vector's contiguous storage.

The project has two modules.

- `RawBytes` (`raw_bytes.dfy`) covers the object representation of trivially
  copyable values.
  - A value of a type of `size` bytes is its representation read as an unsigned
    number below `256^size`.
  - The host byte order is a parameter, and the bytes in memory are computed from
    it (`Bytes`).
  - A vector's contiguous storage is its elements' bytes laid end to end
    (`ElementBytes`).
  - Two round trips are proved: bytes to value to bytes, and a vector's storage
    back to the vector.
- `PowerTabStream` (`output_stream.dfy`) covers the stream classes.
  - `OStream` stands for the `std::ostream`: the bytes its sink holds and its fail
    bit. It never clears the fail bit. A write may stop after any prefix of its
    bytes, and then the fail bit is set. A failed stream takes no bytes.
  - `PowerTabOutputStream` is a class with the header's fields.
  - A ghost `log` records every write made through the object: what was asked
    for, the bytes that reached the sink, and what `CheckState()` reported
    afterwards. The contracts of `WriteVector` and `WriteSmallVector` use it to
    state the order of the writes and where the call stopped.

Several things are parameters: the host byte order, which is fixed at
construction; why the sink refuses bytes, which is a nondeterministic choice in
`OStream.Write`; and the bytes that the writers defined in
`powertaboutputstream.cpp` produce. That file is not part of this model. Those
writers are `WriteCount`, `WriteObject`, `WriteClassInformation`, `MapObject`
and `WriteMFCString`, and they are modelled by the effect they are allowed to
have:

- they append some bytes to the sink (none once it has failed);
- they may record an error but never clear one;
- they may add entries to the identity tables but keep the entries already there;
- they return what `CheckState()` reports afterwards.

## Model

| member | source | states |
|---|---|---|
| RawBytes.Bytes | source/powertabdocument/powertaboutputstream.h:104-106 | a value of a `size`-byte type occupies exactly `size` bytes in memory |
| RawBytes.ValueOfBytes | source/powertabdocument/powertaboutputstream.h:104-106 | a reader with the writer's byte order recovers the value from the bytes `operator<<` copies |
| RawBytes.BytesOfValue | source/powertabdocument/powertaboutputstream.h:104-106 | every byte string of length `size` is the representation of exactly one value, so no information is lost either way |
| RawBytes.SpanIsProduct | source/powertabdocument/powertaboutputstream.h:120 | the storage of `count` elements back to back is `count * sizeof(T)` bytes |
| RawBytes.ElementBytes | source/powertabdocument/powertaboutputstream.h:112-113 | a vector's contiguous storage holds `count * sizeof(T)` bytes |
| RawBytes.ElementBytesAt | source/powertabdocument/powertaboutputstream.h:112-113 | element `i` of the contiguous storage occupies bytes `i * sizeof(T)` up to `(i + 1) * sizeof(T)`, and those are its own bytes |
| RawBytes.SplitElementBytes | source/powertabdocument/powertaboutputstream.h:112-120 | cutting the contiguous storage into `count` pieces of `sizeof(T)` bytes and reading each piece back gives the original vector |
| PowerTabStream.OStream.constructor | source/powertabdocument/powertaboutputstream.h:40 | a stream starts with the given bytes and its fail bit clear |
| PowerTabStream.OStream.Write | source/powertabdocument/powertaboutputstream.h:106 | `m_stream.write` appends a prefix of its data. It appends all of it unless the fail bit ends up set, appends nothing once the stream has failed, and never clears the fail bit |
| PowerTabStream.WriteOutcomeConcat | source/powertabdocument/powertaboutputstream.h:118-120 | two raw writes in a row have the outcome of one write of both byte strings, so a failure in the first write stops everything after it |
| PowerTabStream.SmallVectorBytes | source/powertabdocument/powertaboutputstream.h:117-120 | the bytes `WriteSmallVector` offers the sink: one count byte equal to the size modulo 256, then the storage of that many leading elements; length is `1 + (size mod 256) * sizeof(T)` |
| PowerTabStream.SmallVectorRoundTrip | source/powertabdocument/powertaboutputstream.h:110-121 | a reader that takes the count byte and then that many `sizeof(T)`-byte elements recovers the leading elements the count names, and recovers the whole vector when it has fewer than 256 elements |
| PowerTabStream.EmptyVectorWritesCount | source/powertabdocument/powertaboutputstream.h:87-91 | for an empty vector `WriteVector` makes one write, the count 0, and its bytes are the only ones it adds |
| PowerTabStream.VectorStepsCompose | source/powertabdocument/powertaboutputstream.h:87-99 | the count write followed by the element writes is the count of the whole vector, then one `WriteObject` per element in index order, and the sink gets their bytes in that order |
| PowerTabStream.VectorChecksCompose | source/powertabdocument/powertaboutputstream.h:90-100 | when `WriteVector` returns true every check passed; when it returns false only the last check, the one that ended the call, failed |
| PowerTabStream.PowerTabOutputStream.constructor | source/powertabdocument/powertaboutputstream.h:35-44 | a new serialiser wraps the given stream, with empty identity tables, a map count of 0, no error, maps not initialised, and nothing logged |
| PowerTabStream.PowerTabOutputStream.Fail | source/powertabdocument/powertaboutputstream.h:79-82 | `fail()` reports the stream's fail bit |
| PowerTabStream.PowerTabOutputStream.CheckState | source/powertabdocument/powertaboutputstream.h:61-62 | true exactly when the stream has not failed and the last Power Tab error is `POWERTABSTREAM_NO_ERROR` |
| PowerTabStream.PowerTabOutputStream.TellO | source/powertabdocument/powertaboutputstream.h:74-77 | -1 once the stream has failed, otherwise the number of bytes in the sink |
| PowerTabStream.PowerTabOutputStream.WriteCount | source/powertabdocument/powertaboutputstream.h:47 | appends some bytes and logs the call; an error already recorded stays recorded; table entries already present are kept; the result is `CheckState()` |
| PowerTabStream.PowerTabOutputStream.WriteMFCString | source/powertabdocument/powertaboutputstream.h:48 | the same effect as `WriteCount`, for a string |
| PowerTabStream.PowerTabOutputStream.WriteObject | source/powertabdocument/powertaboutputstream.h:51 | the same effect as `WriteCount`, for an object |
| PowerTabStream.PowerTabOutputStream.WriteClassInformation | source/powertabdocument/powertaboutputstream.h:54 | the same effect as `WriteCount`, for an object's class information |
| PowerTabStream.PowerTabOutputStream.MapObject | source/powertabdocument/powertaboutputstream.h:69 | the same effect as `WriteCount`, for entering an object into the tables |
| PowerTabStream.PowerTabOutputStream.WriteRaw | source/powertabdocument/powertaboutputstream.h:106 | a logged `m_stream.write`: only the sink and the log change |
| PowerTabStream.PowerTabOutputStream.Insert | source/powertabdocument/powertaboutputstream.h:103-108 | `operator<<` writes exactly the `sizeof(T)` bytes of the value, whatever `CheckState()` says. A reader with the same byte order gets the value back. Only the sink and the log change, and it returns the same stream |
| PowerTabStream.PowerTabOutputStream.WriteSmallVector | source/powertabdocument/powertaboutputstream.h:114-121 | the sink takes the count byte and then the storage, as one write could. If the stream is still good it gained `1 + (size mod 256) * sizeof(T)` bytes. Two writes are logged, the count then the storage, and the sink gains exactly the bytes those two logged writes record; nothing else changes |
| PowerTabStream.PowerTabOutputStream.WriteVector | source/powertabdocument/powertaboutputstream.h:84-101 | writes the count, then the elements through `WriteObject` in index order. It returns false at the first failed check and writes nothing after it, and returns true only when every check passed and every element was written. The sink gains exactly the bytes of those writes. A call on a stream that is not good on entry returns false after the count; a stream whose fail bit is set stays failed and gains no bytes. An error stays recorded, and table entries already present are kept |
| PowerTabStream.PowerTabOutputStream.WriteElements | source/powertabdocument/powertaboutputstream.h:91-99 | the element loop of `WriteVector`: one `WriteObject` per element in index order, with a check after each, ending at the first failed check |
| PowerTabStream.PowerTabOutputStream.WriteElement | source/powertabdocument/powertaboutputstream.h:97-98 | one round of the loop: a `WriteObject` of the element, whose logged state is what the following `CheckState()` returns |

## Left out

- `WriteWin32ColorRef` and `WriteMFCRect`: `Colour` and `Rect` are not part of this model, so these writers are not modelled.
- `WriteMFCStringLength`, `CheckCount` and `GetLastErrorMessage` are not modelled. Their bodies are in `powertaboutputstream.cpp`, which is not part of this model, and nothing in the header depends on them.
- PowerTabStream.PowerTabOutputStream.WriteCount, WriteObject, WriteClassInformation, MapObject, WriteMFCString: the MFC byte layouts, the assignment of indices and the deduplication of objects already written are not modelled. Their bodies are in `powertaboutputstream.cpp`, which is not part of this model. Their contracts state only the effect listed above.
- PowerTabStream.PowerTabOutputStream.constructor: its body is in `powertaboutputstream.cpp`, which is not part of this model. The initial state (empty tables, count 0, no error, maps not initialised) is assumed.
- `CHECK_THAT` comes from `macros.h`, which is not part of this model. It is read as "if the condition is false, return the given value".
- The `PowerTabStreamError` enumerators come from `powertabstream.h`, which is not part of this model. Apart from `POWERTABSTREAM_NO_ERROR`, they are told apart only by a number.
- PowerTabStream.OStream.Write: why a sink refuses bytes (full disk, closed file, exceptions enabled on the stream) and the separate `badbit`/`eofbit` are not modelled. Refusal is a nondeterministic choice of how many bytes get through.
- PowerTabStream.PowerTabOutputStream.TellO: the `long` cast and any `tellp` position other than the end of the sink (a stream opened at an offset or seeked) are not modelled.
- PowerTabStream.PowerTabOutputStream.Insert: a value is its representation as a number below `256^sizeof(T)`. Padding bytes of structs and floating-point values are not modelled separately.
- PowerTabStream.PowerTabOutputStream.WriteVector: requires fewer than 2^32 elements. For larger vectors the code silently narrows the `size_t` count to the `uint32_t` that `WriteCount` takes, and its `uint32_t` loop index wraps before reaching the count, so the loop would not end. That case is not modelled.
- PowerTabStream.PowerTabOutputStream.WriteVector: it requires every element to be non-null, which is the code's `assert(vect[i])`. What a build with assertions disabled does with a null element is not modelled.
- PowerTabStream.PowerTabOutputStream.WriteSmallVector: `&vect[0]` on an empty vector is undefined in C++. Here it copies zero bytes.
- WriteSmallVector with 256 or more elements: the code narrows the count to a `uint8_t` without a check, writes the low byte of the size and copies only that many leading elements. The model does the same. The header comment at line 110 asks callers to stay below 255 elements, but the code at line 117 does not check it, and the model follows the code.
- The `std::vector<T>` element type and the smart-pointer `&*` conversion in `WriteVector` are not modelled. The elements are object identities.
- Concurrency: none in the source, none modelled.
