# record-io-buffer in Dafny

This project models the core of record-io-buffer: the `RecordBuffer` class of
`record-buffer.js` and the field types ("record types") of `record-type.js`.

A `RecordBuffer` is a growable byte store with three pieces of state:

- an ArrayBuffer, whose size is the capacity;
- `length`, the number of valid bytes;
- a cursor `pos`, which may lie beyond `length`.

Bytes, integers, strings and whole records are read and written at the cursor.
A record is an ordered shape of field names, each mapped to a field type.

The model has four modules:

- `Bytes` (`bytes.dfy`): the octet type and the byte-sequence helpers shared
  by everything else (`Zeros`, `Repeat`, `Overwrite`, `Window`, `ToUint8`).
- `Ibm437` (`ibm437.dfy`): code page 437.
  - The 256-entry table `mapIBM437` and its `indexOf`.
  - `string.fromArray` and `string.toU8`.
  - The two loops every string field is built on: `dataViewToString` and
    `writeString`.
  - Characters are UTF-16 code units, as in a JavaScript string.
  - A character missing from the table is stored as the byte 0xFF, exactly as
    `Uint8Array` and `DataView` store the `-1` that `indexOf` returns.
- `RecordType` (`record_type.dfy`): the field-type catalogue as one closed
  datatype `Codec`.
  - `Int(width, signed, order)` covers `int.u8` … `int.s32be`.
  - `Midi` is `int.midi`, the variable-length quantity of the Standard MIDI
    Files 1.0 format.
  - Five string field types: `FixedNoTerm`, `FixedReqTerm`, `FixedOptTerm`,
    `VariableReqTerm` and `VariableOptTerm`.
  - `Padding(size, fill)` is `padding(len, val)`.
  - For each codec, `Decode` is what its `read` returns and how far it moves
    the cursor, and `Encode` is the bytes its `write` stores or the error it
    throws.
  - The loops of `midi.read` and `midi.write` are methods over an `array`
    (`MidiRead`, `MidiWrite`). The integer stores have no loop: the 8-, 16-
    and 32-bit ones are one `DataView.setUintN` or `setIntN` call, and the
    24-bit ones are two calls, a one-byte store and a 16-bit store
    (record-type.js:278-279, 289-290, 325-326, 336-337). `WriteInt` writes
    the bytes these calls leave into an `array`, one byte at a time.
- `Buffer` (`record_buffer.dfy`): the `RecordBuffer` class.
  - Fields `buffer: array<byte>`, `length` and `pos`; its methods update them
    in place.
  - Each method is proved against a function on the value `BufferState`:
    `PutState`, `SeekRelState`, `TruncateState`, `WriteState`,
    `ReadRecordFrom`, `WriteRecordFrom`, and so on.
  - The lemmas after the class are proved about those functions. They include
    the record round trip: `writeRecord`, then `seekAbs` back, then
    `readRecord` gives back every value.

A JavaScript value handed to a codec is a `Value`:

- `Number(n)` for an integer.
- `Text(s)` for a string.
- `Block(bytes)` for what `padding.read` returns.
- `Absent` for `undefined`, the value of a key missing from a record object.

Exceptions are modelled as values:

- `Result`/`Option` carry an `Error`.
- `readRecord` throws on a field without a type.
- `midi.write` throws when the value is too large.
- A string field given `undefined` raises a TypeError.
- `writeRecord` re-throws with the field's name.

`write` reserves `type.len || 1024` bytes before it calls the codec: `len`,
or 1024 when `len` is 0 (`ReserveAmount`), as its comment at
record-buffer.js:222-225 says.

Where the code and its comments disagree, the model follows the code:

- `truncate(offset)` with an offset beyond the capacity does not allocate.
  - The comment at record-buffer.js:205 says it enlarges the buffer.
  - The code calls `ensureFreeSpace(0)`, which grows the storage only when the
    cursor is beyond the capacity (`TruncateState`).
  - The tests at test/test-write-block.js:90-116 stay inside the capacity, so
    they agree with both.
- The variable-length string reads advance the cursor by the decoded length
  plus one, even when no terminator was found within `lenMax` bytes.
  - The doc comment at record-type.js:192-194 describes a different advance.
  - `ReadAdvance` states what the code does. `VariableOptTermFull` shows that
    a `VariableOptTerm(n)` string of `n` characters is written in `n` bytes but
    read back with an advance of `n + 1`.
- The constructor's doc comment (record-buffer.js:31) says a buffer that is
  too small is enlarged by 1 kB at a time.
  - `ensureFreeSpace` (record-buffer.js:62-70) instead reallocates to
    `pos + amt` plus 1 MiB (`Grow`, `GrowthStep`).
- `midi.write` accepts values up to 0x1FFFFFFF.
  - Its first group is taken with eight bits (`(val >> 21) & 0xFF`).
  - For values from 0x10000000 the top data bit therefore falls onto the
    continuation bit, and the value does not read back (`MidiHighBitLost`,
    `MidiCounterexample`).
  - The round trip is stated up to 0x0FFFFFFF.

## Model

| member | source | states |
|---|---|---|
| Ibm437.TableInjective | record-type.js:21-60 | two bytes map to the same character of `mapIBM437` exactly when they are the same byte: the 256 entries are pairwise distinct |
| Ibm437.OnlyZeroIsNull | record-type.js:21-60 | the only byte whose table entry is U+0000 is 0x00 |
| Ibm437.Table | record-type.js:21-60 | the table has 256 entries, entry `b` being `Cp437(b)` |
| Ibm437.PositionInverts | record-type.js:21-60 | the independent reverse lookup `Position` sends every table entry back to its byte |
| Ibm437.FirstIndexFinds | record-type.js:83 | `indexOf` gives the first index holding the character, or -1 exactly when no index holds it |
| Ibm437.IndexOfFinds | record-type.js:83 | `mapIBM437.indexOf(c)` is a byte whose entry is `c`, or -1 exactly when no byte maps to `c` |
| Ibm437.IndexOfEntry | record-type.js:83 | looking up the entry of byte `b` gives back `b` |
| Ibm437.IndexOfZero | record-type.js:83 | `indexOf` gives 0 exactly for U+0000, the condition `writeString` treats as a terminator |
| Ibm437.FromArray | record-type.js:115-121 | `string.fromArray(a)` has one character per byte, the table entry of that byte |
| Ibm437.ToU8 | record-type.js:122-128 | `string.toU8(s)` has one byte per character, `indexOf` of that character reduced modulo 256 |
| Ibm437.EncodeDecodeChar | record-type.js:115-128 | storing the character of byte `b` stores `b` |
| Ibm437.DecodeEncodeChar | record-type.js:115-128 | a character in the table survives being stored and read back |
| Ibm437.ToU8FromArray | record-type.js:115-128 | `toU8(fromArray(a)) == a` for every byte sequence |
| Ibm437.FromArrayToU8 | record-type.js:115-128 | `fromArray(toU8(s)) == s` for every string of table characters |
| Ibm437.DecodeString | record-type.js:63-71 | without `nullTerm`: exactly `len` characters, one table entry per byte, 0x00 included; with it: only the bytes before the first zero, so at most `len` characters, none of them U+0000 |
| Ibm437.DataViewToString | record-type.js:63-71 | the loop returns `DecodeString` of the window of at most `len` bytes at `offset` |
| Ibm437.NullIndex | record-type.js:63-102 | the index of the first zero (a 0x00 byte where `dataViewToString` stops, a U+0000 where `writeString` stops), or the length when there is none |
| Ibm437.CopiedChars | record-type.js:73-88 | how many characters `writeString` copies: all that fit with `nullTerm` false; up to the first U+0000 and at most `len - 1` with `true`; up to the first U+0000 and at most `len` with `undefined` |
| Ibm437.PadCount | record-type.js:90-101 | the bytes written after the characters: all the rest of the field when padding, otherwise one zero when there is room |
| Ibm437.StringBytes | record-type.js:73-102 | the bytes `writeString` stores never exceed `len` |
| Ibm437.WriteString | record-type.js:73-102 | the loop stores exactly `StringBytes` at `offset`, leaves every other byte alone, and returns their count |
| RecordType.Pow256 | record-type.js:256-350 | `256^w` is positive |
| RecordType.LeDigits | record-type.js:256-350 | the lowest `w` base-256 digits of a number are `w` bytes |
| RecordType.Reverse | record-type.js:256-350 | reversal keeps the length and mirrors indices |
| RecordType.LowFirst | record-type.js:256-350 | reordering a field's bytes to low-first order keeps their number |
| RecordType.DecodeInt | record-type.js:256-350 | an integer read gives a value in the codec's range: unsigned `[0, 2^(8w))` or two's-complement signed |
| RecordType.EncodeInt | record-type.js:256-350 | an integer write stores `w` bytes whose value, in the codec's byte order, is `val mod 2^(8w)` |
| RecordType.LeValueBound | record-type.js:256-350 | `w` bytes spell a number below `2^(8w)` |
| RecordType.LeValueDigits | record-type.js:256-350 | reading back the digits of a number below `2^(8w)` gives the number |
| RecordType.LeDigitsValue | record-type.js:256-350 | the digits of the value of `w` bytes are those bytes |
| RecordType.ReverseReverse | record-type.js:256-350 | big-endian reordering undoes itself |
| RecordType.ModWidth | record-type.js:256-350 | reduction modulo `2^(8w)` fixes non-negative in-range values and adds `2^(8w)` to negative ones |
| RecordType.IntRoundTrip | record-type.js:256-350 | reading back what an integer codec wrote for an in-range value gives that value |
| RecordType.IntDecodeEncode | record-type.js:256-350 | writing back the value read from `w` bytes stores those very bytes |
| RecordType.WriteInt | record-type.js:256-350 | the integer stores leave the array as before with `EncodeInt(c, val)` at `offset` |
| RecordType.Int32 | record-type.js:369-370 | JavaScript's ToInt32: a value in `[-2^31, 2^31)` congruent to `x` modulo `2^32` |
| RecordType.MidiSizeFrom | record-type.js:352-361 | how many bytes `midi.read` consumes: 1 to 4, every byte but the last with its high bit set, the last with it clear unless four were read |
| RecordType.MidiDecode | record-type.js:352-361 | `midi.read` consumes 1 to 4 bytes, stops after the first byte with a clear high bit, and returns the concatenation of their low seven-bit groups |
| RecordType.MidiValueBound | record-type.js:352-361 | `k` seven-bit groups spell a number below `128^k` |
| RecordType.Groups7Snoc | record-type.js:353-359 | one more byte shifts the accumulated value up seven bits and adds its low seven bits |
| RecordType.Groups7Small | record-type.js:353-359 | the value of one, two, three and four groups written out |
| RecordType.MidiEncode | record-type.js:362-380 | `midi.write` throws exactly when `val > 0x1FFFFFFF`, with that value in the error; otherwise it stores 1 to 4 bytes |
| RecordType.MidiStepsLength | record-type.js:366-379 | the write loop emits at most one byte per remaining step and at least one overall |
| RecordType.Base128 | record-type.js:362-380 | the independent reference: the base-128 digits of `v`, most significant first, at least one, each below 0x80 |
| RecordType.MidiReference | record-type.js:362-380 | the reference encoding has one byte per base-128 digit |
| RecordType.MidiStep | record-type.js:369-370 | one loop step takes the next eight-bit group and shifts the rest up seven bits |
| RecordType.MidiStepsLast | record-type.js:368-379 | the last two loop steps, written out |
| RecordType.MidiStepsGroups | record-type.js:366-379 | the write loop skips the leading zero groups but always emits the last one, and sets the high bit on every emitted byte but the last |
| RecordType.Base128Groups | record-type.js:362-380 | the reference digits of a value given by four seven-bit groups are those groups without the leading zero groups |
| RecordType.MidiGroupsOf | record-type.js:362-380 | a value up to 0x1FFFFFFF splits into an eight-bit top group and three seven-bit groups; the top group fits seven bits exactly when the value is at most 0x0FFFFFFF |
| RecordType.MidiEncodeIsReference | record-type.js:362-380 | for `0 <= v <= 0x0FFFFFFF`, `midi.write` stores the reference encoding: the base-128 digits with the continuation bit on all but the last, so 0 becomes one 0x00 and inner zero groups become 0x80 |
| RecordType.MidiDecode1 | record-type.js:352-361 | a byte below 0x80 is read alone as its own value |
| RecordType.MidiDecode2 | record-type.js:352-361 | a continued byte and a final byte read as two seven-bit groups |
| RecordType.MidiDecode3 | record-type.js:352-361 | two continued bytes and a final byte read as three seven-bit groups |
| RecordType.MidiDecode4 | record-type.js:352-361 | four bytes read as four seven-bit groups, whatever follows them |
| RecordType.MidiRoundTrip | record-type.js:352-380 | for `0 <= v <= 0x0FFFFFFF`, reading back what `midi.write` stored gives `v` and moves the cursor by exactly the bytes written, whatever follows them |
| RecordType.MidiHighBitLost | record-type.js:362-380 | for values from 0x10000000 to 0x1FFFFFFF the write succeeds with four bytes, but the value read back has lost 0x10000000 |
| RecordType.MidiCounterexample | record-type.js:362-380 | 0x10000000 is stored as 80 80 80 00, which reads back as 0 |
| RecordType.MidiRead | record-type.js:352-361 | the read loop returns `MidiDecode` of the bytes at `pos` and the cursor just past them |
| RecordType.MidiWrite | record-type.js:362-380 | the write loop throws exactly when `MidiEncode` does, leaving the array alone; otherwise it stores `MidiEncode(val)` at `pos` and returns the cursor past it |
| RecordType.Decode | record-type.js:141-254 | what each codec's `read` returns: an in-range number for the integers; a number below 2^28 and an advance of 1 to 4 for midi; text no longer than the field for the strings; for the variable strings an advance of the text's length plus one; the raw bytes for padding |
| RecordType.Encode | record-type.js:141-380 | what each codec's `write` stores; it throws exactly for a midi value above 0x1FFFFFFF and for `undefined` given to a string field other than `variable.optTerm`; fixed-size fields store exactly `len` bytes, midi 1 to 4, variable strings at most `lenMax` |
| RecordType.FixedBytes | record-type.js:141-183 | a fixed string field always stores exactly `len` bytes |
| RecordType.NoTermWrite | record-type.js:141-145 | `noTerm`/`optTerm` store the first `len` characters zero-padded; a U+0000 is stored as 0x00; no terminator when the string fills the field |
| RecordType.ReqTermWrite | record-type.js:162-166 | `reqTerm` stores at most `len - 1` characters, stopping at the first U+0000, zero-padded, so the field's last byte is always zero |
| RecordType.VariableReqTermWrite | record-type.js:207-209 | `variable.reqTerm(n)`, `n >= 1`, stores `k = min(characters before the first U+0000, n - 1)` characters and one zero; nothing for `n = 0` |
| RecordType.VariableOptTermWrite | record-type.js:230-232 | `variable.optTerm(n)` stores the characters up to the first U+0000, at most `n`, and a zero only when fewer than `n` were stored |
| RecordType.NullIndexAppendNull | record-type.js:231 | appending the terminator does not move the first U+0000 of a string that already has one, and puts it at the end otherwise |
| RecordType.EncodedNonZero | record-type.js:73-102 | a string without U+0000 whose characters are all in the table stores no zero byte |
| RecordType.NullIndexStorable | record-type.js:73-102 | such a string has no U+0000 |
| RecordType.DecodeTerminated | record-type.js:63-71 | the encoding of such a string followed by a zero, or by the end of the field, decodes with `nullTerm` back to the string |
| RecordType.NoTermRoundTrip | record-type.js:141-145 | a `noTerm(len)` string of exactly `len` table characters reads back unchanged |
| RecordType.ReqTermRoundTrip | record-type.js:162-166 | a `reqTerm(len)` string of fewer than `len` characters reads back unchanged |
| RecordType.OptTermRoundTrip | record-type.js:177-183 | an `optTerm(len)` string of up to `len` characters reads back unchanged, with or without its terminator |
| RecordType.VariableRoundTrip | record-type.js:201-234 | a variable string shorter than `lenMax`, stored with its terminator, reads back unchanged |
| RecordType.VariableOptTermFull | record-type.js:223-234 | a `variable.optTerm(n)` string of `n` characters is stored in `n` bytes without a terminator, but `read` returns it with an advance of `n + 1`, one byte more than was written |
| RecordType.IntFieldRoundTrip | record-type.js:256-350 | an integer field's bytes read back as its value |
| RecordType.MidiFieldRoundTrip | record-type.js:352-380 | a midi field's bytes read back as its value, the advance equal to the bytes written |
| RecordType.FixedFieldRoundTrip | record-type.js:141-183 | a fixed string field's bytes read back as its value |
| RecordType.VariableFieldRoundTrip | record-type.js:201-234 | a variable string field's bytes read back as its value, the advance equal to the bytes written |
| RecordType.FieldRoundTrip | record-type.js:141-380 | for every codec and every value it represents, the bytes `write` stores read back as that value, and the codec's own advance plus its `len` is the number of bytes written |
| Buffer.Grow | record-buffer.js:62-70 | `ensureFreeSpace(amt)`: storage unchanged when `pos + amt` fits; otherwise exactly `pos + amt + 1048576` bytes; old bytes kept, new bytes zero; never shrinks |
| Buffer.PutState | record-buffer.js:108-121 | `put(bytes)`: storage `[pos, pos + n)` is the input, other bytes unchanged (zero where grown); `pos` advances by `n`; `length = max(length, pos)`, so it never decreases |
| Buffer.U8View | record-buffer.js:86-92 | `getU8(offset, len)` is storage `[offset, offset + len)`; an omitted `len` means `length - offset`, an explicit 0 gives nothing |
| Buffer.SeekAbsState | record-buffer.js:170-176 | `seekAbs(o)`: `pos = o` for `o >= 0`, `pos = capacity + o` for `o < 0`, with no clamping; storage and `length` unchanged |
| Buffer.SeekRelState | record-buffer.js:178-182 | `seekRel(d)` leaves `0 <= pos <= capacity`: `pos + d` when it is inside, clamped to 0 or to the capacity otherwise |
| Buffer.TruncateState | record-buffer.js:198-207 | `truncate(o)` sets `length = o` and `pos = min(pos, o)`; `truncate()` sets `length = pos` and keeps `pos`; stored bytes never change; storage grows only as `ensureFreeSpace(0)` at the new cursor |
| Buffer.ReadState | record-buffer.js:150-154 | `read(t)` moves the cursor by the codec's own advance plus `t.len`; storage and `length` unchanged |
| Buffer.WriteState | record-buffer.js:221-230 | `write(t, v)` never shrinks the storage and, when it does not throw, leaves the cursor between its old place and the end of the storage |
| Buffer.ReadRecordFrom | record-buffer.js:156-167 | `readRecord` throws exactly when some field has no type, naming the first such field in the shape's order; otherwise its keys are the shape's names plus those already collected, whose other entries it keeps; storage and `length` unchanged |
| Buffer.ReadRecordStops | record-buffer.js:156-167 | at the first field without a type, `readRecord` throws the error naming it and leaves the cursor where reading the fields before it leaves it |
| Buffer.ReadRecordUnfold | record-buffer.js:156-167 | one step of `readRecord`: a field with a type is read and the rest is read from where it leaves the cursor |
| Buffer.WriteRecordFrom | record-buffer.js:232-240 | `writeRecord` throws only with an error naming one of the shape's fields; the storage and `length` never shrink; when every field has a type and nothing throws, the cursor does not move back |
| Buffer.RecordBuffer.Create | record-buffer.js:38-56 | the constructor throws exactly for an input that is neither a size nor bytes; a size gives `Sized`'s state and bytes give `Wrap`'s, in a fresh buffer |
| Buffer.RecordBuffer.Sized | record-buffer.js:39-41 | `new RecordBuffer(n)`: zero-filled storage of `n` bytes, 1048576 for `n = 0`; `length = 0`, `pos = 0` |
| Buffer.RecordBuffer.Wrap | record-buffer.js:42-50 | a buffer over a byte region: its bytes, `length` its size, `pos = 0` |
| Buffer.RecordBuffer.DistFromEnd | record-buffer.js:58-60 | `distFromEnd()` is `length - pos`, non-negative exactly when the cursor is within the valid data |
| Buffer.RecordBuffer.GetPos | record-buffer.js:94-96 | `getPos()` is the cursor |
| Buffer.RecordBuffer.EnsureFreeSpace | record-buffer.js:62-70 | the reallocation copies the old bytes into the storage `Grow` describes; `length` and `pos` unchanged |
| Buffer.RecordBuffer.GetU8 | record-buffer.js:86-92 | returns `U8View` of the state; nothing changes |
| Buffer.RecordBuffer.Put | record-buffer.js:108-121 | the new state is `PutState` of the old one |
| Buffer.RecordBuffer.PutBuffer | record-buffer.js:108-121 | `put(otherBuffer)` puts the other buffer's valid bytes, as `PutState` |
| Buffer.RecordBuffer.Get | record-buffer.js:134-139 | `get(len)` returns storage `[pos, pos + len)` and advances `pos` by exactly `len`; `length` untouched |
| Buffer.RecordBuffer.SeekAbs | record-buffer.js:170-176 | the new state is `SeekAbsState` of the old one |
| Buffer.RecordBuffer.SeekRel | record-buffer.js:178-182 | the new state is `SeekRelState` of the old one |
| Buffer.RecordBuffer.UpdateLength | record-buffer.js:185-187 | `length` becomes `max(length, pos)`; nothing else changes |
| Buffer.RecordBuffer.Truncate | record-buffer.js:198-207 | the new state is `TruncateState` of the old one |
| Buffer.RecordBuffer.CodecRead | record-type.js:141-361 | each codec's `read` returns `Decode`'s value and moves the cursor by `Decode`'s advance; it changes no byte |
| Buffer.RecordBuffer.Read | record-buffer.js:150-154 | `read(t)` returns and leaves what `ReadState` says |
| Buffer.RecordBuffer.CodecWrite | record-type.js:141-380 | each codec's `write` leaves the state `CodecWriteState` gives: `Encode`'s bytes at the cursor, its own advance, and the error it throws |
| Buffer.RecordBuffer.StringCodecWrite | record-type.js:141-234 | the five string writes call `writeString` with their `nullTerm` and padding policy; the variable ones advance by its result |
| Buffer.RecordBuffer.PaddingCodecWrite | record-type.js:245-254 | `padding.write` puts `len` fill bytes at the cursor, which raises `length` to their end, then moves the cursor back to where it was |
| Buffer.RecordBuffer.Write | record-buffer.js:221-230 | `write(t, v)`: reserve `t.len`, or 1024 when it is 0; run the codec; add `t.len`; update `length`; all as `WriteState` |
| Buffer.RecordBuffer.ReadRecord | record-buffer.js:156-167 | the loop over the shape returns and leaves what `ReadRecordFrom` says |
| Buffer.RecordBuffer.WriteRecord | record-buffer.js:232-240 | the loop over the shape leaves what `WriteRecordFrom` says, stopping at the first failure with the earlier fields written |
| Buffer.PutAppends | record-buffer.js:108-121 | putting at the end of the valid data appends: the valid data afterwards is the old valid data followed by the bytes |
| Buffer.TruncateToLarger | test/test-write-block.js:104-116 | puts of 2, 3 and 2 bytes into a 4-byte buffer, then `truncate(8)`, leave those 7 bytes and a zero, whatever the storage held |
| Buffer.TruncateToSmaller | test/test-write-block.js:90-102 | the same puts, then `truncate(6)`, leave the first 6 bytes and the cursor at 6 |
| Buffer.ReadAdvance | record-buffer.js:150-154 | `read(t)` advances by `t.len` when it is positive; midi by 1 to 4; the variable strings by the text's length plus one, at most `lenMax + 1`; padding returns storage `[pos, pos + len)` |
| Buffer.WriteAdvance | record-buffer.js:221-230 | `write(t, v)` throws exactly when the codec does, then leaving `pos` and `length` alone; otherwise it stores the codec's bytes at the cursor, moves past them (by `t.len` when positive), sets `length = max(length, pos)`, and leaves every other byte as it was or zero |
| Buffer.PaddingWriteFills | record-type.js:245-254 | `write(padding(len, fill))` never throws and leaves storage `[pos, pos + len)` all `fill`, with a net advance of `len` |
| Buffer.WriteRecordKeepsPrefix | record-buffer.js:232-240 | `writeRecord` never changes a byte below the cursor it starts at, and never moves the cursor back |
| Buffer.RecordBytesCons | record-buffer.js:232-240 | a record's bytes are its first field's bytes followed by those of the rest |
| Buffer.WriteRecordStep | record-buffer.js:232-240 | writing a record's first field stores its bytes at the cursor and moves past them, and the rest is written from there |
| Buffer.WriteRecordUnfold | record-buffer.js:232-240 | one step of `writeRecord`: a field without a type throws with its name; a failing write is rethrown with the field's name; a successful one continues with the rest of the shape from the new state |
| Buffer.WriteRecordAdvances | record-buffer.js:232-240 | `writeRecord` of representable values does not throw and moves the cursor past exactly the record's bytes |
| Buffer.FirstWrittenFits | record-buffer.js:218-240 | writing a record's first field leaves the cursor at or after where it started and inside the storage, with the rest of the record still writable |
| Buffer.StoresCons | record-buffer.js:232-240 | when the rest of a record is stored from where the first field's write ends, the whole record is stored from where `writeRecord` started |
| Buffer.WriteRecordStores | record-buffer.js:232-240 | `writeRecord` of representable values stores the record's bytes, field after field, from its starting cursor, also from a cursor past the capacity (the first write grows the storage) |
| Buffer.FieldLoads | record-buffer.js:150-154 | `read(t)` over `t`'s bytes for `v` returns `v` and moves past them |
| Buffer.ReadRecordStep | record-buffer.js:156-167 | reading a record's first field from its bytes gives the object's value and leaves the cursor at the bytes of the rest |
| Buffer.ReadRecordRuns | record-buffer.js:156-167 | `readRecord` over a record's bytes does not throw and ends just past them |
| Buffer.RestStored | record-buffer.js:156-167 | when a record's bytes sit at the cursor, the rest of the shape's bytes sit just past the first field's, ending where the whole record ends |
| Buffer.ReadRecordCons | record-buffer.js:156-167 | `readRecord` over a record's bytes reads the first field as the object's value and goes on with the rest of the shape from just past it |
| Buffer.ReadsBackCons | record-buffer.js:156-167 | if the rest of a record reads back as the object's values, so does the whole record |
| Buffer.StoredReadsBack | record-buffer.js:156-167 | a record's bytes read back, field after field, as the object's values |
| Buffer.ReadRecordLoads | record-buffer.js:156-167 | `readRecord` over fields that read back the object's values returns the object's value under every name of the shape |
| Buffer.ReadRecordBack | record-buffer.js:156-167 | `readRecord` over storage holding a record's bytes at the cursor returns exactly the shape's names, the object's value under each, and ends just past those bytes |
| Buffer.RecordRoundTrip | record-buffer.js:156-240 | from any cursor `pos >= 0`, including one past the capacity: `writeRecord(shape, obj)`, then `seekAbs` back, then `readRecord(shape)`; the write does not throw, and the read returns a record with exactly the shape's names and the object's value for each, ending where the write ended |

## Left out

- The constructor's type tests (record-buffer.js:39-53) are reduced to the kinds of input they tell apart. A number is `Source.Size`. An ArrayBuffer and a TypedArray are `Source.Data`. Anything else is `Source.Unsupported`, and that includes a plain Array and another RecordBuffer: an Array has no `.buffer` (record-buffer.js:45), a RecordBuffer has no `byteOffset`, so both are thrown out at record-buffer.js:52.
- `put`'s type tests (record-buffer.js:109-116) are reduced the same way. An Array, a TypedArray and an ArrayBuffer are all `Put` of their element values: `put` copies `buf.length` elements and `Uint8Array.set` converts each one with ToUint8 (modulo 256), so the caller of `Put` passes those bytes. Another RecordBuffer is `PutBuffer`, which puts `buf.getU8()`, the other buffer's bytes up to its `length` (record-buffer.js:86-94, 113-114). Elements that are not integers (fractions, NaN, strings) are not modelled.
- Buffer.RecordBuffer.Wrap: copies the given bytes into a fresh array. The constructor copies a TypedArray too (record-buffer.js:46-49) but keeps a caller's ArrayBuffer by reference (record-buffer.js:43), so the caller sees the buffer's writes until the first reallocation, and the buffer sees the caller's. That sharing is not modelled.
- Buffer.RecordBuffer.Sized: takes `n: nat`; a negative size, for which `new ArrayBuffer` throws a RangeError, is not modelled.
- Buffer.RecordBuffer.Get: returns a copy. The source returns a live view that goes stale after a reallocation; aliasing is not modelled.
- Buffer.RecordBuffer.GetU8: returns a copy of the bytes rather than a live view, for the same reason.
- The `dataview` field is not a separate field: it is always a view of `buffer`.
- The `console.error` at record-buffer.js:161 is logging. Only the exception that follows it is modelled.
- DataView RangeErrors are not modelled: a read or write past the end of the storage, or a view that does not fit, is excluded by a precondition. The preconditions are:
  - `Readable`, `CodecWritable` and `Writable` for reads and writes;
  - `ViewInBounds` for `getU8`;
  - the bound on `get`;
  - `pos >= 0` on `put`.

  A variable-length string longer than the 1024-byte reservation is one such case.
- JavaScript coercions of mismatched values are not modelled. `Accepts` lets an integer codec take only numbers or `undefined`, and a string codec only strings or `undefined`.
  - Numbers are integers. Fractions, NaN from non-numeric input, and Infinity are floating point and are not modelled.
  - For integers, ToInt32, ToUint8 and the other DataView conversions reduce modulo `2^32` or `2^(8w)`. The model states this exactly (`EncodeInt`, `Int32`).
  - `undefined` is modelled: it stores 0 in the number codecs and throws in the string codecs, except `variable.optTerm`, which stores the text "undefined".
- RecordType.MidiRoundTrip: stated only for `0 <= v <= 0x0FFFFFFF`. Above that, `midi.write` accepts values that do not read back (`MidiHighBitLost`, `MidiCounterexample`). Negative values are written as their 32-bit two's complement (`Int32`), and no round trip is stated for them.
- Buffer.RecordRoundTrip: requires the shape's field names to be distinct (`DistinctNames`). A JavaScript object's keys are distinct by construction; the model's shape is a sequence. The sequence stands for the order of `Object.keys(rec)` (record-buffer.js:158, 233), which lists integer-like keys first, in ascending order, and then the others in insertion order; that order fixes the record's byte layout.
- Buffer.RecordRoundTrip: requires every value to be one its field type reads back unchanged (`Representable`). Strings that are too long, or that have characters outside the table, are cut or altered by the write, as `NoTermWrite` and the other write lemmas state.
- `RecordType.block` is used by the tests, but it is not defined in record-type.js, so it is not part of this model.
- The test harness (test/index.js, test/util.js) is not modelled. The test files serve only as concrete expected bytes.
