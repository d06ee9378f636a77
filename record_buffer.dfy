/**
 * The RecordBuffer of record-buffer.js: a growable byte store with a cursor,
 * into which fields and whole records are read and written through the codecs
 * of RecordType.
 */
module Buffer {
  import opened Bytes
  import opened Ibm437
  import opened RecordType

  datatype Option<T> = None | Some(value: T)

  /** What the constructor allocates when asked for zero bytes, and the room a reallocation adds beyond what is needed. */
  const GrowthStep: nat := 0x10_0000

  /** What `write` reserves before running a codec whose `len` is 0. */
  const DefaultReserve: nat := 1024

  /**
   * The observable state of a RecordBuffer: the bytes of its ArrayBuffer (whose
   * size is the capacity), `length`, the number of valid bytes, and the cursor
   * `pos`, which may lie beyond `length`.
   */
  datatype BufferState = BufferState(storage: seq<byte>, length: int, pos: int)

  // ---------------------------------------------------------------------------
  // The state each operation leaves
  // ---------------------------------------------------------------------------

  /**
   * The storage after `ensureFreeSpace(amt)` with the cursor at `pos`: when
   * `pos + amt` bytes do not fit, a new zero-filled ArrayBuffer of exactly
   * `pos + amt + 1 MiB` bytes with the old bytes copied to its start.
   */
  function Grow(st: seq<byte>, pos: int, amt: nat): (r: seq<byte>)
    ensures pos + amt <= |st| ==> r == st
    ensures pos + amt > |st| ==> |r| == pos + amt + GrowthStep
    ensures |r| >= |st| && |r| >= pos + amt
    ensures forall i :: 0 <= i < |r| ==> r[i] == if i < |st| then st[i] else 0
  {
    if pos + amt > |st| then st + Zeros(pos + amt + GrowthStep - |st|) else st
  }

  /**
   * The state after `put(bs)`: the bytes from the cursor are `bs`, every other
   * byte is as before (or zero where the storage grew), the cursor has moved
   * past them and `length` has grown to it if needed.
   */
  function PutState(s: BufferState, bs: seq<byte>): (r: BufferState)
    requires s.pos >= 0
    ensures |r.storage| >= |s.storage| && |r.storage| >= s.pos + |bs|
    ensures forall i :: 0 <= i < |r.storage| ==>
      r.storage[i] == if s.pos <= i < s.pos + |bs| then bs[i - s.pos] else if i < |s.storage| then s.storage[i] else 0
    ensures r.pos == s.pos + |bs|
    ensures r.length == Max(s.length, r.pos) && r.length >= s.length
  {
    var g := Grow(s.storage, s.pos, |bs|);
    BufferState(Overwrite(g, s.pos, bs), Max(s.length, s.pos + |bs|), s.pos + |bs|)
  }

  /** What `getU8(offset, len)` returns: `len` bytes of storage from `offset`, or up to `length` when `len` is omitted. */
  function U8View(s: BufferState, offset: int, len: Option<int>): (r: seq<byte>)
    requires ViewInBounds(s, offset, len)
    ensures len.Some? ==> |r| == len.value
    ensures len.None? ==> |r| == s.length - offset
    ensures forall i :: 0 <= i < |r| ==> r[i] == s.storage[offset + i]
  {
    var n := if len.Some? then len.value else s.length - offset;
    s.storage[offset..offset + n]
  }

  /** The view `getU8(offset, len)` constructs lies inside the ArrayBuffer (otherwise it throws a RangeError). */
  predicate ViewInBounds(s: BufferState, offset: int, len: Option<int>) {
    var n := if len.Some? then len.value else s.length - offset;
    0 <= offset && 0 <= n && offset + n <= |s.storage|
  }

  /** The state after `seekAbs(offset)`: a negative offset counts back from the end of the storage; nothing is clamped. */
  function SeekAbsState(s: BufferState, offset: int): (r: BufferState)
    ensures r.storage == s.storage && r.length == s.length
    ensures offset >= 0 ==> r.pos == offset
    ensures offset < 0 ==> r.pos - offset == |s.storage|
  {
    s.(pos := if offset < 0 then |s.storage| + offset else offset)
  }

  /** The state after `seekRel(offset)`: the cursor moved by `offset`, then clamped into the storage. */
  function SeekRelState(s: BufferState, offset: int): (r: BufferState)
    ensures r.storage == s.storage && r.length == s.length
    ensures 0 <= r.pos <= |s.storage|
    ensures 0 <= s.pos + offset <= |s.storage| ==> r.pos == s.pos + offset
    ensures s.pos + offset < 0 ==> r.pos == 0
    ensures s.pos + offset > |s.storage| ==> r.pos == |s.storage|
  {
    s.(pos := Min(Max(s.pos + offset, 0), |s.storage|))
  }

  /**
   * The state after `truncate(offset)`: `length` set to `offset` (to the cursor
   * when omitted), the cursor pulled back to it, the storage grown only when the
   * cursor lies beyond it; no stored byte changes.
   */
  function TruncateState(s: BufferState, offset: Option<int>): (r: BufferState)
    ensures offset.None? ==> r.length == s.pos && r.pos == s.pos
    ensures offset.Some? ==> r.length == offset.value && r.pos == Min(s.pos, offset.value)
    ensures r.storage == Grow(s.storage, r.pos, 0)
    ensures r.storage[..|s.storage|] == s.storage
  {
    var t := if offset.None? then s.(length := s.pos) else s.(length := offset.value, pos := Min(s.pos, offset.value));
    t.(storage := Grow(t.storage, t.pos, 0))
  }

  /** The space `write` makes sure of before running a codec: its `len`, or 1024 bytes when that is 0. */
  function ReserveAmount(c: Codec): nat {
    if c.Len() == 0 then DefaultReserve else c.Len()
  }

  /** What `read(c)` returns and the state it leaves: the codec's own advance plus its `len`. */
  function ReadState(s: BufferState, c: Codec): (r: (Value, BufferState))
    requires Readable(c, s.storage, s.pos)
    ensures r.1.storage == s.storage && r.1.length == s.length
    ensures r.1.pos == s.pos + Decode(c, s.storage, s.pos).1 + c.Len()
  {
    var (v, advance) := Decode(c, s.storage, s.pos);
    (v, s.(pos := s.pos + advance + c.Len()))
  }

  /**
   * `write(c, v)` stays inside the storage: the cursor is not negative, and
   * after the reservation the bytes the codec stores fit (otherwise the DataView
   * throws a RangeError midway).
   */
  predicate Writable(s: BufferState, c: Codec, v: Value) {
    CodecWritable(s.(storage := Grow(s.storage, s.pos, ReserveAmount(c))), c, v)
  }

  /** The codec's own `write(rb, v)` stays inside the storage it is given. */
  predicate CodecWritable(s: BufferState, c: Codec, v: Value) {
    Accepts(c, v) && s.pos >= 0 &&
    (Encode(c, v).Ok? ==> s.pos + |Encode(c, v).value| <= |s.storage|)
  }

  /**
   * The state the codec's own `write(rb, v)` leaves and the error it throws:
   * either its bytes at the cursor, or nothing changed. The variable-length
   * codecs move the cursor past their bytes; padding, which goes through
   * `put`, raises `length` to its end and moves the cursor back.
   */
  function CodecWriteState(s: BufferState, c: Codec, v: Value): (r: (BufferState, Option<Error>))
    requires CodecWritable(s, c, v)
  {
    match Encode(c, v)
    case Err(e) => (s, Some(e))
    case Ok(bs) =>
      (BufferState(Overwrite(s.storage, s.pos, bs),
                   if c.Padding? then Max(s.length, s.pos + |bs|) else s.length,
                   s.pos + |bs| - c.Len()), None)
  }

  /**
   * The state `write(c, v)` leaves and the error it throws, if any: the
   * reservation happens first, so storage grows even when the codec then
   * throws; after the codec the cursor moves by its `len` and `length` catches up.
   */
  function WriteState(s: BufferState, c: Codec, v: Value): (r: (BufferState, Option<Error>))
    requires Writable(s, c, v)
    ensures |r.0.storage| >= |s.storage|
    ensures r.1.None? ==> s.pos <= r.0.pos <= |r.0.storage|
  {
    var t := CodecWriteState(s.(storage := Grow(s.storage, s.pos, ReserveAmount(c))), c, v);
    if t.1.Some? then t
    else (t.0.(length := Max(t.0.length, t.0.pos + c.Len()), pos := t.0.pos + c.Len()), None)
  }

  // ---------------------------------------------------------------------------
  // Records
  // ---------------------------------------------------------------------------

  /** One entry of a record shape: a field name and its codec, which may be missing (`undefined`). */
  datatype Field = Field(name: string, codec: Option<Codec>)

  /** Every read `readRecord(fields)` makes, from state `s`, stays inside the storage. */
  predicate RecordReadable(s: BufferState, fields: seq<Field>)
    decreases |fields|
  {
    fields == [] || fields[0].codec.None? ||
    (Readable(fields[0].codec.value, s.storage, s.pos) &&
     RecordReadable(ReadState(s, fields[0].codec.value).1, fields[1..]))
  }

  /**
   * What `readRecord(fields)` returns, having read the fields in order into
   * `out`: the record, or the error for the first field without a codec; and
   * the state it leaves (the fields before that error stay read).
   */
  function ReadRecordFrom(s: BufferState, fields: seq<Field>, out: map<string, Value>): (r: (BufferState, Result<map<string, Value>>))
    requires RecordReadable(s, fields)
    ensures r.1.Err? <==> exists i :: 0 <= i < |fields| && fields[i].codec.None?
    ensures r.1.Err? ==> exists i :: (0 <= i < |fields| && fields[i].codec.None? &&
      (forall j :: 0 <= j < i ==> fields[j].codec.Some?) && r.1.error == MissingFieldType(fields[i].name))
    ensures r.1.Ok? ==> r.1.value.Keys == out.Keys + Names(fields)
    ensures r.1.Ok? ==> forall k :: k in out && k !in Names(fields) ==> r.1.value[k] == out[k]
    ensures r.0.storage == s.storage && r.0.length == s.length
    decreases |fields|
  {
    if fields == [] then (s, Ok(out))
    else
      match fields[0].codec
      case None => (s, Err(MissingFieldType(fields[0].name)))
      case Some(c) =>
        var (v, next) := ReadState(s, c);
        var r := ReadRecordFrom(next, fields[1..], out[fields[0].name := v]);
        assert forall i :: 1 <= i < |fields| ==> fields[i] == fields[1..][i - 1];
        assert Names(fields) == {fields[0].name} + Names(fields[1..]);
        r
  }

  /**
   * `readRecord(fields)` stops at the first field without a codec: it throws
   * the error naming that field and leaves the cursor where reading the
   * fields before it leaves it.
   */
  lemma {:induction false} ReadRecordStops(s: BufferState, fields: seq<Field>, out: map<string, Value>, i: nat)
    requires RecordReadable(s, fields)
    requires i < |fields| && fields[i].codec.None? && forall j :: 0 <= j < i ==> fields[j].codec.Some?
    ensures RecordReadable(s, fields[..i])
    ensures ReadRecordFrom(s, fields[..i], out).1.Ok?
    ensures ReadRecordFrom(s, fields, out).1 == Err(MissingFieldType(fields[i].name))
    ensures ReadRecordFrom(s, fields, out).0 == ReadRecordFrom(s, fields[..i], out).0
    decreases i
  {
    if i == 0 {
      assert fields[..i] == [];
    } else {
      var c := fields[0].codec.value;
      var (v, next) := ReadState(s, c);
      var out1 := out[fields[0].name := v];
      var pre := fields[..i];
      TakeTail(fields, i);
      ReadRecordStops(next, fields[1..], out1, i - 1);
      ReadRecordUnfold(s, fields, out);
      ReadRecordUnfold(s, pre, out);
    }
  }

  /** The first `i` elements of a sequence start with its head, followed by the first `i - 1` of its tail. */
  lemma TakeTail<T>(xs: seq<T>, i: nat)
    requires 0 < i <= |xs|
    ensures xs[..i] != [] && xs[..i][0] == xs[0] && xs[..i][1..] == xs[1..][..i - 1]
    ensures forall j :: 0 <= j < i - 1 ==> xs[1..][j] == xs[j + 1]
  {
  }

  /** One step of `readRecord`: a first field with a codec is read, then the rest from where it leaves the cursor. */
  lemma ReadRecordUnfold(s: BufferState, fields: seq<Field>, out: map<string, Value>)
    requires fields != [] && fields[0].codec.Some?
    requires Readable(fields[0].codec.value, s.storage, s.pos)
    requires RecordReadable(ReadState(s, fields[0].codec.value).1, fields[1..])
    ensures RecordReadable(s, fields)
    ensures ReadRecordFrom(s, fields, out) ==
      ReadRecordFrom(ReadState(s, fields[0].codec.value).1, fields[1..], out[fields[0].name := ReadState(s, fields[0].codec.value).0])
  {
  }

  /** The names of a record shape's fields. */
  function Names(fields: seq<Field>): set<string> {
    set f | f in fields :: f.name
  }

  /** The value a record object holds for `name`: `undefined` when it has none. */
  function ValueOf(obj: map<string, Value>, name: string): Value {
    if name in obj then obj[name] else Absent
  }

  /** Every write `writeRecord(fields, obj)` makes, from state `s`, stays inside the storage. */
  predicate RecordWritable(s: BufferState, fields: seq<Field>, obj: map<string, Value>)
    decreases |fields|
  {
    fields == [] || fields[0].codec.None? ||
    (var c := fields[0].codec.value;
     var v := ValueOf(obj, fields[0].name);
     Writable(s, c, v) &&
     (WriteState(s, c, v).1.None? ==> RecordWritable(WriteState(s, c, v).0, fields[1..], obj)))
  }

  /**
   * The state `writeRecord(fields, obj)` leaves and the error it throws: the
   * fields are written in order, and the first failure stops the walk with its
   * field's name; the fields before it stay written.
   */
  function WriteRecordFrom(s: BufferState, fields: seq<Field>, obj: map<string, Value>): (r: (BufferState, Option<Error>))
    requires RecordWritable(s, fields, obj)
    ensures r.1.Some? ==> exists i :: 0 <= i < |fields| && r.1.value.FieldWriteError? && r.1.value.field == fields[i].name
    ensures (forall i :: 0 <= i < |fields| ==> fields[i].codec.Some?) && r.1.None? ==> r.0.pos >= s.pos
    ensures |r.0.storage| >= |s.storage| && r.0.length >= s.length
    decreases |fields|
  {
    if fields == [] then (s, None)
    else
      var f := fields[0];
      match f.codec
      case None => (s, Some(FieldWriteError(f.name, UndefinedType)))
      case Some(c) =>
        var (next, err) := WriteState(s, c, ValueOf(obj, f.name));
        if err.Some? then (next, Some(FieldWriteError(f.name, err.value)))
        else
          var r := WriteRecordFrom(next, fields[1..], obj);
          assert forall i :: 1 <= i < |fields| ==> fields[i] == fields[1..][i - 1];
          r
  }

  // ---------------------------------------------------------------------------
  // The class
  // ---------------------------------------------------------------------------

  /** What the constructor is given: a size to preallocate, the bytes of an ArrayBuffer or TypedArray, or anything else. */
  datatype Source = Size(n: nat) | Data(bytes: seq<byte>) | Unsupported

  class RecordBuffer {
    /** The ArrayBuffer, seen through `dataview`; its size is the capacity. */
    var buffer: array<byte>
    /** The number of valid bytes. */
    var length: int
    /** The read/write cursor. */
    var pos: int

    function State(): BufferState
      reads this, buffer
    {
      BufferState(buffer[..], length, pos)
    }

    /** `new RecordBuffer(n)`: `n` zero bytes of room (1 MiB when `n` is 0), no data yet. */
    constructor Sized(n: nat)
      ensures State() == BufferState(Zeros(if n == 0 then GrowthStep else n), 0, 0)
    {
      buffer := new byte[if n == 0 then GrowthStep else n](_ => 0);
      length := 0;
      pos := 0;
    }

    /** `new RecordBuffer(bytes)`: the bytes are the data, the cursor at their start. */
    constructor Wrap(bytes: seq<byte>)
      ensures State() == BufferState(bytes, |bytes|, 0)
    {
      buffer := new byte[|bytes|](i requires 0 <= i < |bytes| => bytes[i]);
      length := |bytes|;
      pos := 0;
    }

    /** The constructor's dispatch on its argument: it throws for anything but a size or bytes. */
    static method Create(src: Source) returns (r: Result<RecordBuffer>)
      ensures src.Unsupported? <==> r.Err?
      ensures r.Err? ==> r.error == UnsupportedInputKind
      ensures src.Size? && r.Ok? ==> fresh(r.value) && r.value.State() == BufferState(Zeros(if src.n == 0 then GrowthStep else src.n), 0, 0)
      ensures src.Data? && r.Ok? ==> fresh(r.value) && r.value.State() == BufferState(src.bytes, |src.bytes|, 0)
    {
      if src.Size? {
        var rb := new RecordBuffer.Sized(src.n);
        r := Ok(rb);
      } else if src.Data? {
        var rb := new RecordBuffer.Wrap(src.bytes);
        r := Ok(rb);
      } else {
        r := Err(UnsupportedInputKind);
      }
    }

    /** `distFromEnd()`: how many valid bytes lie after the cursor (negative once the cursor is past them). */
    method DistFromEnd() returns (d: int)
      ensures d == length - pos
      ensures d >= 0 <==> pos <= length
    {
      d := length - pos;
    }

    /** `getPos()`. */
    method GetPos() returns (p: int)
      ensures p == pos
    {
      p := pos;
    }

    /** `ensureFreeSpace(amt)`: reallocates and copies when `amt` bytes from the cursor do not fit. */
    method EnsureFreeSpace(amt: nat)
      modifies this
      ensures State() == old(State()).(storage := Grow(old(buffer[..]), pos, amt))
      ensures buffer == old(buffer) || fresh(buffer)
    {
      if pos + amt > buffer.Length {
        var grown := new byte[pos + amt + GrowthStep](_ => 0);
        forall i | 0 <= i < buffer.Length {
          grown[i] := buffer[i];
        }
        buffer := grown;
      }
    }

    /** `getU8(offset, len)`: a copy of `len` bytes of storage from `offset`, or up to `length` when `len` is omitted; nothing moves. */
    method GetU8(offset: int, len: Option<int>) returns (r: seq<byte>)
      requires ViewInBounds(State(), offset, len)
      ensures r == U8View(State(), offset, len)
    {
      var n := if len.None? then length - offset else len.value;
      r := buffer[offset..offset + n];
    }

    /** `put(bytes)`: copies the bytes to the cursor, growing the storage first if needed, and moves past them. */
    method Put(bytes: seq<byte>)
      requires pos >= 0
      modifies this, buffer
      ensures State() == PutState(old(State()), bytes)
      ensures buffer == old(buffer) || fresh(buffer)
    {
      EnsureFreeSpace(|bytes|);
      forall i | 0 <= i < |bytes| {
        buffer[pos + i] := bytes[i];
      }
      pos := pos + |bytes|;
      UpdateLength();
      assert buffer[..] == Overwrite(Grow(old(buffer[..]), old(pos), |bytes|), old(pos), bytes);
    }

    /** `put(other)` for another RecordBuffer: puts the valid bytes of `other` (which may be this very buffer). */
    method PutBuffer(other: RecordBuffer)
      requires pos >= 0 && 0 <= other.length <= other.buffer.Length
      modifies this, buffer
      ensures State() == PutState(old(State()), old(other.buffer[..other.length]))
      ensures buffer == old(buffer) || fresh(buffer)
    {
      var bytes := other.GetU8(0, None);
      assert buffer == old(buffer);
      Put(bytes);
    }

    /** `get(len)`: a copy of `len` bytes from the cursor, which moves past them. */
    method Get(len: nat) returns (r: seq<byte>)
      requires 0 <= pos && pos + len <= buffer.Length
      modifies this
      ensures buffer == old(buffer)
      ensures r == old(buffer[pos..pos + len])
      ensures State() == old(State()).(pos := old(pos) + len)
    {
      r := buffer[pos..pos + len];
      pos := pos + len;
    }

    /** `seekAbs(offset)`. */
    method SeekAbs(offset: int)
      modifies this
      ensures buffer == old(buffer)
      ensures State() == SeekAbsState(old(State()), offset)
    {
      if offset < 0 {
        pos := buffer.Length + offset;
      } else {
        pos := offset;
      }
    }

    /** `seekRel(offset)`: moves, then clamps at 0 and at the end of the storage. */
    method SeekRel(offset: int)
      modifies this
      ensures buffer == old(buffer)
      ensures State() == SeekRelState(old(State()), offset)
    {
      pos := pos + offset;
      pos := Max(pos, 0);
      pos := Min(pos, buffer.Length);
    }

    /** `updateLength()`: `length` catches up with the cursor. */
    method UpdateLength()
      modifies this
      ensures buffer == old(buffer)
      ensures pos == old(pos) && length == Max(old(length), pos)
    {
      length := Max(length, pos);
    }

    /** `truncate(offset)`. */
    method Truncate(offset: Option<int>)
      modifies this
      ensures State() == TruncateState(old(State()), offset)
      ensures buffer == old(buffer) || fresh(buffer)
    {
      if offset.None? {
        length := pos;
      } else {
        length := offset.value;
        pos := Min(pos, length);
      }
      EnsureFreeSpace(0);
    }

    /** The codec's own `read(rb)`: the value, the cursor moved by what the codec itself moves it. */
    method CodecRead(c: Codec) returns (v: Value)
      requires Readable(c, buffer[..], pos)
      modifies this
      ensures buffer == old(buffer)
      ensures v == Decode(c, old(buffer[..]), old(pos)).0
      ensures length == old(length) && pos == old(pos) + Decode(c, old(buffer[..]), old(pos)).1
    {
      match c
      case Int(w, _, _) =>
        v := Number(DecodeInt(c, buffer[pos..pos + w]));
      case Midi =>
        var n, next := MidiRead(buffer, pos);
        v := Number(n);
        pos := next;
      case FixedNoTerm(n) =>
        var s := DataViewToString(buffer, pos, n, false);
        v := Text(s);
      case FixedReqTerm(n) =>
        var s := DataViewToString(buffer, pos, n, true);
        v := Text(s);
      case FixedOptTerm(n) =>
        var s := DataViewToString(buffer, pos, n, true);
        v := Text(s);
      case VariableReqTerm(n) =>
        var s := DataViewToString(buffer, pos, n, true);
        pos := pos + |s| + 1;
        v := Text(s);
      case VariableOptTerm(n) =>
        var s := DataViewToString(buffer, pos, n, true);
        pos := pos + |s| + 1;
        v := Text(s);
      case Padding(n, _) =>
        var bytes := GetU8(pos, Some(n));
        v := Block(bytes);
    }

    /** `read(c)`: runs the codec, then moves the cursor by the codec's `len`. */
    method Read(c: Codec) returns (v: Value)
      requires Readable(c, buffer[..], pos)
      modifies this
      ensures buffer == old(buffer)
      ensures v == ReadState(old(State()), c).0
      ensures State() == ReadState(old(State()), c).1
    {
      v := CodecRead(c);
      pos := pos + c.Len();
    }

    /**
     * The codec's own `write(rb, v)`: stores the codec's bytes at the cursor, or
     * throws before storing anything; the variable-length codecs move the
     * cursor past their bytes, padding moves it back after its `put`.
     */
    method CodecWrite(c: Codec, v: Value) returns (err: Option<Error>)
      requires CodecWritable(State(), c, v)
      modifies this, buffer
      ensures buffer == old(buffer) || fresh(buffer)
      ensures buffer[..] == CodecWriteState(old(State()), c, v).0.storage
      ensures length == CodecWriteState(old(State()), c, v).0.length
      ensures pos == CodecWriteState(old(State()), c, v).0.pos
      ensures err == CodecWriteState(old(State()), c, v).1
    {
      match c
      case Int(_, _, _) =>
        WriteInt(buffer, pos, c, if v.Number? then v.n else 0);
        err := None;
      case Midi =>
        var r := MidiWrite(buffer, pos, if v.Number? then v.n else 0);
        if r.Err? {
          err := Some(r.error);
        } else {
          pos := r.value;
          err := None;
        }
      case Padding(_, _) =>
        err := PaddingCodecWrite(c, v);
      case _ =>
        err := StringCodecWrite(c, v);
    }

    /**
     * The `write` of the five string codecs: `writeString` at the cursor with
     * each codec's termination and padding; the variable-length ones move the
     * cursor past what they stored. Only `variable.optTerm` accepts `undefined`
     * (it appends the terminator to it as text); the others throw a TypeError.
     */
    method StringCodecWrite(c: Codec, v: Value) returns (err: Option<Error>)
      requires IsString(c) && CodecWritable(State(), c, v)
      modifies this, buffer
      ensures buffer == old(buffer)
      ensures buffer[..] == CodecWriteState(old(State()), c, v).0.storage
      ensures length == CodecWriteState(old(State()), c, v).0.length
      ensures pos == CodecWriteState(old(State()), c, v).0.pos
      ensures err == CodecWriteState(old(State()), c, v).1
    {
      match c
      case FixedNoTerm(n) =>
        if v.Absent? {
          err := Some(NotAString);
        } else {
          var written := WriteString(v.s, buffer, pos, n, Embed, true);
          err := None;
        }
      case FixedReqTerm(n) =>
        if v.Absent? {
          err := Some(NotAString);
        } else {
          var written := WriteString(v.s, buffer, pos, n, Reserve, true);
          err := None;
        }
      case FixedOptTerm(n) =>
        if v.Absent? {
          err := Some(NotAString);
        } else {
          var written := WriteString(v.s, buffer, pos, n, Embed, true);
          err := None;
        }
      case VariableReqTerm(n) =>
        if v.Absent? {
          err := Some(NotAString);
        } else {
          var written := WriteString(v.s, buffer, pos, n, Reserve, false);
          pos := pos + written;
          err := None;
        }
      case VariableOptTerm(n) =>
        var written := WriteString((if v.Absent? then UndefinedText else v.s) + [0], buffer, pos, n, Stop, false);
        pos := pos + written;
        err := None;
    }

    /** `padding(len, fill).write`: `put`s `len` fill bytes, then moves the cursor back over them. */
    method PaddingCodecWrite(c: Codec, v: Value) returns (err: Option<Error>)
      requires c.Padding? && CodecWritable(State(), c, v)
      modifies this, buffer
      ensures buffer == old(buffer) || fresh(buffer)
      ensures buffer[..] == CodecWriteState(old(State()), c, v).0.storage
      ensures length == CodecWriteState(old(State()), c, v).0.length
      ensures pos == CodecWriteState(old(State()), c, v).0.pos
      ensures err == CodecWriteState(old(State()), c, v).1
    {
      Put(Repeat(c.fill, c.size));
      pos := pos - c.size;
      err := None;
    }

    /**
     * `write(c, v)`: reserves the codec's `len` (1024 bytes when it is 0), runs
     * the codec, then moves the cursor by the codec's `len` and lets `length`
     * catch up; when the codec throws, only the reservation has happened.
     */
    method Write(c: Codec, v: Value) returns (err: Option<Error>)
      requires Writable(State(), c, v)
      modifies this, buffer
      ensures buffer == old(buffer) || fresh(buffer)
      ensures buffer[..] == WriteState(old(State()), c, v).0.storage
      ensures length == WriteState(old(State()), c, v).0.length
      ensures pos == WriteState(old(State()), c, v).0.pos
      ensures err == WriteState(old(State()), c, v).1
    {
      EnsureFreeSpace(ReserveAmount(c));
      err := CodecWrite(c, v);
      if err.None? {
        pos := pos + c.Len();
        UpdateLength();
      }
    }

    /** `readRecord(fields)`: reads the fields in order into a record; throws at the first field without a codec. */
    method ReadRecord(fields: seq<Field>) returns (r: Result<map<string, Value>>)
      requires RecordReadable(State(), fields)
      modifies this
      ensures buffer == old(buffer)
      ensures buffer[..] == old(buffer[..])
      ensures length == old(length)
      ensures pos == ReadRecordFrom(old(State()), fields, map[]).0.pos
      ensures r == ReadRecordFrom(old(State()), fields, map[]).1
    {
      var out: map<string, Value> := map[];
      var i := 0;
      while i < |fields|
        invariant 0 <= i <= |fields| && buffer == old(buffer)
        invariant RecordReadable(State(), fields[i..])
        invariant ReadRecordFrom(old(State()), fields, map[]) == ReadRecordFrom(State(), fields[i..], out)
      {
        var f := fields[i];
        assert fields[i..][1..] == fields[i + 1..];
        if f.codec.None? {
          return Err(MissingFieldType(f.name));
        }
        var v := Read(f.codec.value);
        out := out[f.name := v];
        i := i + 1;
      }
      return Ok(out);
    }

    /** `writeRecord(fields, obj)`: writes the fields in order; the first failure is rethrown with its field's name. */
    method WriteRecord(fields: seq<Field>, obj: map<string, Value>) returns (err: Option<Error>)
      requires RecordWritable(State(), fields, obj)
      modifies this, buffer
      ensures buffer == old(buffer) || fresh(buffer)
      ensures buffer[..] == WriteRecordFrom(old(State()), fields, obj).0.storage
      ensures length == WriteRecordFrom(old(State()), fields, obj).0.length
      ensures pos == WriteRecordFrom(old(State()), fields, obj).0.pos
      ensures err == WriteRecordFrom(old(State()), fields, obj).1
    {
      var i := 0;
      while i < |fields|
        invariant 0 <= i <= |fields|
        invariant buffer == old(buffer) || fresh(buffer)
        invariant RecordWritable(State(), fields[i..], obj)
        invariant WriteRecordFrom(old(State()), fields, obj) == WriteRecordFrom(State(), fields[i..], obj)
      {
        ghost var s0 := State();
        var f := fields[i];
        assert fields[i..][1..] == fields[i + 1..];
        WriteRecordUnfold(s0, fields[i..], obj);
        if f.codec.None? {
          return Some(FieldWriteError(f.name, UndefinedType));
        }
        var e := Write(f.codec.value, ValueOf(obj, f.name));
        if e.Some? {
          return Some(FieldWriteError(f.name, e.value));
        }
        i := i + 1;
      }
      return None;
    }
  }

  // ---------------------------------------------------------------------------
  // Properties of the operations
  // ---------------------------------------------------------------------------

  /** One step of `writeRecord`: the first field is written, then either its failure is rethrown or the rest follows. */
  lemma WriteRecordUnfold(s: BufferState, fields: seq<Field>, obj: map<string, Value>)
    requires fields != [] && RecordWritable(s, fields, obj)
    ensures fields[0].codec.None? ==> WriteRecordFrom(s, fields, obj) == (s, Some(FieldWriteError(fields[0].name, UndefinedType)))
    ensures fields[0].codec.Some? ==>
      var c, v := fields[0].codec.value, ValueOf(obj, fields[0].name);
      Writable(s, c, v) &&
      (WriteState(s, c, v).1.Some? ==>
         WriteRecordFrom(s, fields, obj) == (WriteState(s, c, v).0, Some(FieldWriteError(fields[0].name, WriteState(s, c, v).1.value)))) &&
      (WriteState(s, c, v).1.None? ==>
         RecordWritable(WriteState(s, c, v).0, fields[1..], obj) &&
         WriteRecordFrom(s, fields, obj) == WriteRecordFrom(WriteState(s, c, v).0, fields[1..], obj))
  {
  }

  /**
   * Putting bytes at the end of the valid data appends them: the valid data
   * afterwards is the old valid data followed by the bytes.
   */
  lemma PutAppends(s: BufferState, bs: seq<byte>)
    requires 0 <= s.pos == s.length <= |s.storage|
    ensures PutState(s, bs).length == s.length + |bs|
    ensures PutState(s, bs).storage[..s.length + |bs|] == s.storage[..s.length] + bs
  {
    var r := PutState(s, bs);
    forall i | 0 <= i < s.length + |bs|
      ensures r.storage[..s.length + |bs|][i] == (s.storage[..s.length] + bs)[i]
    {
    }
  }

  /**
   * A buffer of four bytes that has had 2, 3 and 2 bytes put into it and is
   * then truncated to 8 bytes holds those 7 bytes and a zero, whatever its
   * storage held at first: the reallocation for the second put zero-filled it.
   */
  lemma TruncateToLarger(init: seq<byte>)
    requires |init| == 4
    ensures var s1 := PutState(BufferState(init, 0, 0), [0x12, 0x34]);
            var s2 := PutState(s1, [0x56, 0x78, 0x9A]);
            var s3 := PutState(s2, [0xBC, 0xDE]);
            var t := TruncateState(s3, Some(8));
            ViewInBounds(t, 0, None) &&
            U8View(t, 0, None) == [0x12, 0x34, 0x56, 0x78, 0x9A, 0xBC, 0xDE, 0x00]
  {
    var s1 := PutState(BufferState(init, 0, 0), [0x12, 0x34]);
    var s2 := PutState(s1, [0x56, 0x78, 0x9A]);
    var s3 := PutState(s2, [0xBC, 0xDE]);
    assert |s1.storage| == 4 && s1.pos == 2;
    assert |s2.storage| == 5 + GrowthStep && s2.pos == 5;
    assert |s3.storage| == |s2.storage| && s3.pos == 7;
    assert s3.storage[7] == s2.storage[7] == 0;
    var t := TruncateState(s3, Some(8));
    assert t.storage == s3.storage;
    var v := U8View(t, 0, None);
    assert |v| == 8;
    assert v == [0x12, 0x34, 0x56, 0x78, 0x9A, 0xBC, 0xDE, 0x00];
  }

  /**
   * The same buffer truncated to 6 bytes holds only the first 6 of them, and
   * the cursor is pulled back to the new end.
   */
  lemma TruncateToSmaller(init: seq<byte>)
    requires |init| == 4
    ensures var s1 := PutState(BufferState(init, 0, 0), [0x12, 0x34]);
            var s2 := PutState(s1, [0x56, 0x78, 0x9A]);
            var s3 := PutState(s2, [0xBC, 0xDE]);
            var t := TruncateState(s3, Some(6));
            t.pos == 6 && ViewInBounds(t, 0, None) &&
            U8View(t, 0, None) == [0x12, 0x34, 0x56, 0x78, 0x9A, 0xBC]
  {
    var s1 := PutState(BufferState(init, 0, 0), [0x12, 0x34]);
    var s2 := PutState(s1, [0x56, 0x78, 0x9A]);
    var s3 := PutState(s2, [0xBC, 0xDE]);
    assert |s1.storage| == 4 && s1.pos == 2;
    assert |s2.storage| == 5 + GrowthStep && s2.pos == 5;
    assert |s3.storage| == |s2.storage| && s3.pos == 7;
    var t := TruncateState(s3, Some(6));
    assert t.storage == s3.storage;
    var v := U8View(t, 0, None);
    assert |v| == 6;
    assert v == [0x12, 0x34, 0x56, 0x78, 0x9A, 0xBC];
  }

  /**
   * `read(c)` moves the cursor by the codec's `len` when it has one, by the
   * one to four bytes a variable-length quantity takes, and by one more than
   * the length of the string for the variable-length strings; `padding.read`
   * returns the bytes it passes over.
   */
  lemma ReadAdvance(s: BufferState, c: Codec)
    requires Readable(c, s.storage, s.pos)
    ensures c.Len() > 0 ==> ReadState(s, c).1.pos == s.pos + c.Len()
    ensures c.Midi? ==> s.pos + 1 <= ReadState(s, c).1.pos <= s.pos + 4
    ensures c.VariableReqTerm? || c.VariableOptTerm? ==>
      ReadState(s, c).0.Text? && ReadState(s, c).1.pos == s.pos + |ReadState(s, c).0.s| + 1 <= s.pos + Span(c) + 1
    ensures c.Padding? ==> ReadState(s, c).0 == Block(s.storage[s.pos..s.pos + c.size])
  {
  }

  /**
   * What `write(c, v)` leaves: when the codec stores its bytes, they lie from
   * the old cursor, the cursor ends just past them (by exactly the codec's
   * `len` when it has one), `length` catches up with it, and every other byte
   * is as before or zero where the storage grew; when it throws, the cursor,
   * `length` and the stored bytes are as before.
   */
  lemma WriteAdvance(s: BufferState, c: Codec, v: Value)
    requires Writable(s, c, v)
    ensures WriteState(s, c, v).1.None? <==> Encode(c, v).Ok?
    ensures Encode(c, v).Ok? ==>
      var r := WriteState(s, c, v).0;
      var bs := Encode(c, v).value;
      r.pos == s.pos + |bs| && (c.Len() > 0 ==> r.pos == s.pos + c.Len()) &&
      r.length == Max(s.length, r.pos) && |s.storage| <= |r.storage| && r.pos <= |r.storage| &&
      r.storage[s.pos..r.pos] == bs &&
      forall i :: 0 <= i < |r.storage| && !(s.pos <= i < r.pos) ==> r.storage[i] == if i < |s.storage| then s.storage[i] else 0
    ensures Encode(c, v).Err? ==>
      var r := WriteState(s, c, v).0;
      r.pos == s.pos && r.length == s.length && |s.storage| <= |r.storage| && r.storage[..|s.storage|] == s.storage
  {
    var g := Grow(s.storage, s.pos, ReserveAmount(c));
    if Encode(c, v).Ok? {
      var bs := Encode(c, v).value;
      var r := WriteState(s, c, v).0;
      assert r.storage == Overwrite(g, s.pos, bs);
      assert r.storage[s.pos..s.pos + |bs|] == bs;
    } else {
      assert WriteState(s, c, v).0.storage == g;
      assert g[..|s.storage|] == s.storage;
    }
  }

  /**
   * `padding(len, fill)` written through `write` leaves `len` fill bytes from
   * the cursor and a net cursor advance of `len`.
   */
  lemma PaddingWriteFills(s: BufferState, n: nat, fill: byte, v: Value)
    requires Writable(s, Padding(n, fill), v)
    ensures WriteState(s, Padding(n, fill), v).1.None?
    ensures WriteState(s, Padding(n, fill), v).0.pos == s.pos + n
    ensures forall i :: s.pos <= i < s.pos + n ==> WriteState(s, Padding(n, fill), v).0.storage[i] == fill
  {
    WriteAdvance(s, Padding(n, fill), v);
    var r := WriteState(s, Padding(n, fill), v).0;
    forall i | s.pos <= i < s.pos + n
      ensures r.storage[i] == fill
    {
      assert r.storage[s.pos..r.pos][i - s.pos] == fill;
    }
  }

  /**
   * Writing a record never changes a byte below the cursor it starts at, and
   * the cursor only moves forward; a cursor inside the storage stays inside it.
   */
  lemma {:induction false} WriteRecordKeepsPrefix(s: BufferState, fields: seq<Field>, obj: map<string, Value>)
    requires RecordWritable(s, fields, obj)
    ensures WriteRecordFrom(s, fields, obj).0.pos >= s.pos
    ensures s.pos <= |s.storage| ==> WriteRecordFrom(s, fields, obj).0.pos <= |WriteRecordFrom(s, fields, obj).0.storage|
    ensures forall i :: 0 <= i < s.pos && i < |s.storage| ==> WriteRecordFrom(s, fields, obj).0.storage[i] == s.storage[i]
    decreases |fields|
  {
    if fields != [] && fields[0].codec.Some? {
      var c := fields[0].codec.value;
      var v := ValueOf(obj, fields[0].name);
      WriteAdvance(s, c, v);
      var next := WriteState(s, c, v).0;
      if WriteState(s, c, v).1.None? {
        WriteRecordKeepsPrefix(next, fields[1..], obj);
        assert WriteRecordFrom(s, fields, obj) == WriteRecordFrom(next, fields[1..], obj);
        forall i | 0 <= i < s.pos && i < |s.storage|
          ensures WriteRecordFrom(s, fields, obj).0.storage[i] == s.storage[i]
        {
          assert next.storage[i] == s.storage[i];
        }
      } else {
        assert next.storage[..|s.storage|] == s.storage;
        forall i | 0 <= i < s.pos && i < |s.storage|
          ensures next.storage[i] == s.storage[i]
        {
          assert next.storage[..|s.storage|][i] == s.storage[i];
        }
      }
    }
  }

  /**
   * Storage `w` that agrees with `st` below `mid`, where `st` holds `bs` from
   * `pos` to `mid`, and that holds `tail` from `mid`, holds `all == bs + tail` from `pos`.
   */
  lemma Splice(w: seq<byte>, st: seq<byte>, pos: nat, mid: nat, bs: seq<byte>, tail: seq<byte>, all: seq<byte>)
    requires pos <= mid <= |st| && mid + |tail| <= |w|
    requires st[pos..mid] == bs
    requires forall i :: 0 <= i < mid && i < |st| ==> w[i] == st[i]
    requires w[mid..mid + |tail|] == tail
    requires all == bs + tail
    ensures pos + |all| <= |w|
    ensures w[pos..pos + |all|] == all
  {
    forall j | 0 <= j < |bs| + |tail|
      ensures w[pos..pos + |bs| + |tail|][j] == (bs + tail)[j]
    {
      if j < |bs| {
        assert w[pos + j] == st[pos + j] == st[pos..mid][j];
      } else {
        assert w[mid..mid + |tail|][j - |bs|] == tail[j - |bs|];
      }
    }
  }

  /** Storage holding `bs + tail` from `pos` holds `bs` from `pos` and `tail` right after it. */
  lemma Split(st: seq<byte>, pos: nat, bs: seq<byte>, tail: seq<byte>)
    requires pos + |bs| + |tail| <= |st|
    requires st[pos..pos + |bs| + |tail|] == bs + tail
    ensures st[pos..pos + |bs|] == bs
    ensures st[pos + |bs|..pos + |bs| + |tail|] == tail
  {
    var all := st[pos..pos + |bs| + |tail|];
    assert st[pos..pos + |bs|] == all[..|bs|];
    assert st[pos + |bs|..pos + |bs| + |tail|] == all[|bs|..];
  }

  /** No two fields of the shape share a name. */
  predicate DistinctNames(fields: seq<Field>)
    decreases |fields|
  {
    fields == [] || (fields[0].name !in Names(fields[1..]) && DistinctNames(fields[1..]))
  }

  /** The record object's value for each field is one that field's codec stores and reads back unchanged. */
  predicate RecordRepresentable(fields: seq<Field>, obj: map<string, Value>)
    decreases |fields|
  {
    fields == [] ||
    (fields[0].codec.Some? && Representable(fields[0].codec.value, ValueOf(obj, fields[0].name)) &&
     RecordRepresentable(fields[1..], obj))
  }

  /** The bytes `writeRecord(fields, obj)` stores: each field's bytes, in the shape's order. */
  function RecordBytes(fields: seq<Field>, obj: map<string, Value>): (r: seq<byte>)
    requires RecordRepresentable(fields, obj)
    decreases |fields|
  {
    if fields == [] then []
    else
      var c, v := fields[0].codec.value, ValueOf(obj, fields[0].name);
      RepresentableEncodes(c, v);
      Encode(c, v).value + RecordBytes(fields[1..], obj)
  }

  /** A record's bytes are its first field's bytes followed by the bytes of the rest. */
  lemma RecordBytesCons(fields: seq<Field>, obj: map<string, Value>)
    requires fields != [] && RecordRepresentable(fields, obj)
    ensures Representable(fields[0].codec.value, ValueOf(obj, fields[0].name))
    ensures Accepts(fields[0].codec.value, ValueOf(obj, fields[0].name))
    ensures Encode(fields[0].codec.value, ValueOf(obj, fields[0].name)).Ok?
    ensures RecordBytes(fields, obj) ==
      Encode(fields[0].codec.value, ValueOf(obj, fields[0].name)).value + RecordBytes(fields[1..], obj)
  {
    RepresentableEncodes(fields[0].codec.value, ValueOf(obj, fields[0].name));
  }

  /** A representable value is one its codec accepts and stores without throwing. */
  lemma RepresentableEncodes(c: Codec, v: Value)
    requires Representable(c, v)
    ensures Accepts(c, v) && Encode(c, v).Ok?
  {
  }

  /**
   * Writing a record's first field, when its value is representable, does not
   * throw, stores the field's bytes at the cursor and moves past them; the rest
   * of the record is then written from there.
   */
  lemma WriteRecordStep(s: BufferState, fields: seq<Field>, obj: map<string, Value>)
    requires fields != [] && RecordWritable(s, fields, obj) && RecordRepresentable(fields, obj)
    requires 0 <= s.pos
    ensures var c, v := fields[0].codec.value, ValueOf(obj, fields[0].name);
      Encode(c, v).Ok? && WriteState(s, c, v).1.None? &&
      WriteState(s, c, v).0.pos == s.pos + |Encode(c, v).value| <= |WriteState(s, c, v).0.storage| &&
      WriteState(s, c, v).0.storage[s.pos..WriteState(s, c, v).0.pos] == Encode(c, v).value &&
      RecordWritable(WriteState(s, c, v).0, fields[1..], obj) &&
      WriteRecordFrom(s, fields, obj) == WriteRecordFrom(WriteState(s, c, v).0, fields[1..], obj)
  {
    var c, v := fields[0].codec.value, ValueOf(obj, fields[0].name);
    RepresentableEncodes(c, v);
    WriteAdvance(s, c, v);
  }

  /**
   * `writeRecord(fields, obj)`, when no field throws, moves the cursor past
   * the record's bytes, and the cursor stays inside the storage.
   */
  lemma {:induction false} WriteRecordAdvances(s: BufferState, fields: seq<Field>, obj: map<string, Value>)
    requires RecordWritable(s, fields, obj) && RecordRepresentable(fields, obj)
    requires 0 <= s.pos && (s.pos <= |s.storage| || fields != [])
    ensures WriteRecordFrom(s, fields, obj).1.None?
    ensures WriteRecordFrom(s, fields, obj).0.pos == s.pos + |RecordBytes(fields, obj)| <= |WriteRecordFrom(s, fields, obj).0.storage|
    decreases |fields|
  {
    if fields != [] {
      WriteRecordStep(s, fields, obj);
      RecordBytesCons(fields, obj);
      WriteRecordAdvances(WriteState(s, fields[0].codec.value, ValueOf(obj, fields[0].name)).0, fields[1..], obj);
    }
  }

  /** Storage holding a record's bytes at the cursor. */
  predicate StoredAt(t: BufferState, fields: seq<Field>, obj: map<string, Value>)
    requires RecordRepresentable(fields, obj)
  {
    0 <= t.pos && t.pos + |RecordBytes(fields, obj)| <= |t.storage| &&
    t.storage[t.pos..t.pos + |RecordBytes(fields, obj)|] == RecordBytes(fields, obj)
  }

  /** The state after writing a record's first field. */
  function FirstWritten(s: BufferState, fields: seq<Field>, obj: map<string, Value>): (r: BufferState)
    requires fields != [] && fields[0].codec.Some? && RecordWritable(s, fields, obj)
    ensures |r.storage| >= |s.storage|
  {
    WriteState(s, fields[0].codec.value, ValueOf(obj, fields[0].name)).0
  }

  /** Writing a record's first field leaves the cursor inside the storage, ready to write the rest. */
  lemma FirstWrittenFits(s: BufferState, fields: seq<Field>, obj: map<string, Value>)
    requires fields != [] && RecordWritable(s, fields, obj) && RecordRepresentable(fields, obj)
    requires 0 <= s.pos
    ensures 0 <= FirstWritten(s, fields, obj).pos <= |FirstWritten(s, fields, obj).storage|
    ensures s.pos <= FirstWritten(s, fields, obj).pos
    ensures RecordWritable(FirstWritten(s, fields, obj), fields[1..], obj)
    ensures RecordRepresentable(fields[1..], obj)
  {
    WriteRecordStep(s, fields, obj);
  }

  /**
   * When the rest of a record is stored from the cursor the first field's
   * write leaves, the whole record is stored from the cursor `writeRecord`
   * starts at.
   */
  lemma StoresCons(s: BufferState, fields: seq<Field>, obj: map<string, Value>)
    requires fields != [] && RecordWritable(s, fields, obj) && RecordRepresentable(fields, obj)
    requires 0 <= s.pos
    requires RecordWritable(FirstWritten(s, fields, obj), fields[1..], obj)
    requires RecordRepresentable(fields[1..], obj)
    requires 0 <= FirstWritten(s, fields, obj).pos
    requires StoredAt(SeekAbsState(WriteRecordFrom(FirstWritten(s, fields, obj), fields[1..], obj).0, FirstWritten(s, fields, obj).pos), fields[1..], obj)
    ensures StoredAt(SeekAbsState(WriteRecordFrom(s, fields, obj).0, s.pos), fields, obj)
  {
    var rest := fields[1..];
    WriteRecordStep(s, fields, obj);
    RecordBytesCons(fields, obj);
    var bs := Encode(fields[0].codec.value, ValueOf(obj, fields[0].name)).value;
    var s1 := FirstWritten(s, fields, obj);
    WriteRecordKeepsPrefix(s1, rest, obj);
    var w := WriteRecordFrom(s1, rest, obj).0.storage;
    assert WriteRecordFrom(s, fields, obj).0.storage == w;
    assert SeekAbsState(WriteRecordFrom(s1, rest, obj).0, s1.pos).storage == w;
    Splice(w, s1.storage, s.pos, s1.pos, bs, RecordBytes(rest, obj), RecordBytes(fields, obj));
  }

  /**
   * `writeRecord(fields, obj)`, when no field throws, stores the record's bytes
   * from the cursor it starts at.
   */
  lemma {:induction false} WriteRecordStores(s: BufferState, fields: seq<Field>, obj: map<string, Value>)
    requires RecordWritable(s, fields, obj) && RecordRepresentable(fields, obj)
    requires 0 <= s.pos && (s.pos <= |s.storage| || fields != [])
    ensures StoredAt(SeekAbsState(WriteRecordFrom(s, fields, obj).0, s.pos), fields, obj)
    decreases |fields|
  {
    if fields != [] {
      FirstWrittenFits(s, fields, obj);
      WriteRecordStores(FirstWritten(s, fields, obj), fields[1..], obj);
      StoresCons(s, fields, obj);
    }
  }

  /** `read(c)` over storage holding the codec's bytes for `v` at the cursor returns `v` and moves past them. */
  lemma FieldLoads(t: BufferState, c: Codec, v: Value)
    requires Representable(c, v) && Accepts(c, v) && Encode(c, v).Ok?
    requires 0 <= t.pos && t.pos + |Encode(c, v).value| <= |t.storage|
    requires t.storage[t.pos..t.pos + |Encode(c, v).value|] == Encode(c, v).value
    ensures Readable(c, t.storage, t.pos)
    ensures ReadState(t, c) == (v, t.(pos := t.pos + |Encode(c, v).value|))
  {
    FieldRoundTrip(c, v, t.storage, t.pos);
  }

  /**
   * Storage holding a record's bytes at the cursor: reading the first field
   * gives the object's value for it and leaves the cursor at the bytes of the
   * remaining fields.
   */
  lemma ReadRecordStep(t: BufferState, fields: seq<Field>, obj: map<string, Value>)
    requires fields != [] && RecordRepresentable(fields, obj)
    requires 0 <= t.pos && t.pos + |RecordBytes(fields, obj)| <= |t.storage|
    requires t.storage[t.pos..t.pos + |RecordBytes(fields, obj)|] == RecordBytes(fields, obj)
    ensures |RecordBytes(fields[1..], obj)| <= |RecordBytes(fields, obj)|
    ensures Readable(fields[0].codec.value, t.storage, t.pos)
    ensures ReadState(t, fields[0].codec.value).0 == ValueOf(obj, fields[0].name)
    ensures ReadState(t, fields[0].codec.value).1 ==
      t.(pos := t.pos + |RecordBytes(fields, obj)| - |RecordBytes(fields[1..], obj)|)
    ensures t.storage[t.pos + |RecordBytes(fields, obj)| - |RecordBytes(fields[1..], obj)|..t.pos + |RecordBytes(fields, obj)|] ==
      RecordBytes(fields[1..], obj)
  {
    var c, v := fields[0].codec.value, ValueOf(obj, fields[0].name);
    RecordBytesCons(fields, obj);
    Split(t.storage, t.pos, Encode(c, v).value, RecordBytes(fields[1..], obj));
    FieldLoads(t, c, v);
  }

  /** The state with the cursor moved past the first field's bytes. */
  function AfterFirst(t: BufferState, fields: seq<Field>, obj: map<string, Value>): (r: BufferState)
    requires fields != [] && RecordRepresentable(fields, obj)
    ensures r.storage == t.storage && r.length == t.length
  {
    t.(pos := t.pos + |RecordBytes(fields, obj)| - |RecordBytes(fields[1..], obj)|)
  }

  /** Once the first field's bytes are passed, the rest of the record's bytes lie at the cursor. */
  lemma RestStored(t: BufferState, fields: seq<Field>, obj: map<string, Value>)
    requires fields != [] && RecordRepresentable(fields, obj) && StoredAt(t, fields, obj)
    ensures RecordRepresentable(fields[1..], obj)
    ensures StoredAt(AfterFirst(t, fields, obj), fields[1..], obj)
    ensures AfterFirst(t, fields, obj).pos + |RecordBytes(fields[1..], obj)| == t.pos + |RecordBytes(fields, obj)|
  {
    ReadRecordStep(t, fields, obj);
    var n, m := |RecordBytes(fields, obj)|, |RecordBytes(fields[1..], obj)|;
    var t1 := AfterFirst(t, fields, obj);
    assert t1.pos + m == t.pos + n;
    assert t1.storage[t1.pos..t1.pos + m] == t.storage[t.pos + n - m..t.pos + n];
  }

  /** One step of `readRecord` over a record's bytes: the first field is read as the object's value, the rest follows. */
  lemma ReadRecordCons(t: BufferState, fields: seq<Field>, obj: map<string, Value>, out: map<string, Value>)
    requires fields != [] && RecordRepresentable(fields, obj) && StoredAt(t, fields, obj)
    requires RecordReadable(AfterFirst(t, fields, obj), fields[1..])
    ensures RecordReadable(t, fields)
    ensures ReadRecordFrom(t, fields, out) ==
      ReadRecordFrom(AfterFirst(t, fields, obj), fields[1..], out[fields[0].name := ValueOf(obj, fields[0].name)])
  {
    ReadRecordStep(t, fields, obj);
    var r := ReadState(t, fields[0].codec.value);
    assert r.1 == AfterFirst(t, fields, obj) && r.0 == ValueOf(obj, fields[0].name);
  }

  /** One step of `ReadsBack` over a record's bytes. */
  lemma ReadsBackCons(t: BufferState, fields: seq<Field>, obj: map<string, Value>)
    requires fields != [] && RecordRepresentable(fields, obj) && StoredAt(t, fields, obj)
    requires ReadsBack(AfterFirst(t, fields, obj), fields[1..], obj)
    ensures ReadsBack(t, fields, obj)
  {
    ReadRecordStep(t, fields, obj);
    assert ReadState(t, fields[0].codec.value).1 == AfterFirst(t, fields, obj);
  }

  /**
   * `readRecord(fields)` over storage holding a record's bytes at the cursor
   * reads every field without throwing and leaves the cursor just past the bytes.
   */
  lemma {:induction false} ReadRecordRuns(t: BufferState, fields: seq<Field>, obj: map<string, Value>, out: map<string, Value>)
    requires RecordRepresentable(fields, obj) && StoredAt(t, fields, obj)
    ensures RecordReadable(t, fields)
    ensures ReadRecordFrom(t, fields, out).1.Ok?
    ensures ReadRecordFrom(t, fields, out).0.pos == t.pos + |RecordBytes(fields, obj)|
    decreases |fields|
  {
    if fields != [] {
      RestStored(t, fields, obj);
      var out1 := out[fields[0].name := ValueOf(obj, fields[0].name)];
      ReadRecordRuns(AfterFirst(t, fields, obj), fields[1..], obj, out1);
      ReadRecordCons(t, fields, obj, out);
    }
  }

  /** Reading the shape's fields one after another from `t` gives the object's value for each. */
  predicate ReadsBack(t: BufferState, fields: seq<Field>, obj: map<string, Value>)
    decreases |fields|
  {
    fields == [] ||
    (fields[0].codec.Some? && Readable(fields[0].codec.value, t.storage, t.pos) &&
     ReadState(t, fields[0].codec.value).0 == ValueOf(obj, fields[0].name) &&
     ReadsBack(ReadState(t, fields[0].codec.value).1, fields[1..], obj))
  }

  /** Storage holding a record's bytes at the cursor reads back the object's values. */
  lemma {:induction false} StoredReadsBack(t: BufferState, fields: seq<Field>, obj: map<string, Value>)
    requires RecordRepresentable(fields, obj) && StoredAt(t, fields, obj)
    ensures ReadsBack(t, fields, obj)
    decreases |fields|
  {
    if fields != [] {
      RestStored(t, fields, obj);
      StoredReadsBack(AfterFirst(t, fields, obj), fields[1..], obj);
      ReadsBackCons(t, fields, obj);
    }
  }

  /**
   * `readRecord(fields)`, where the fields read back the object's values and
   * their names are distinct, returns the object's value for every field.
   */
  lemma {:induction false} ReadRecordLoads(t: BufferState, fields: seq<Field>, obj: map<string, Value>, out: map<string, Value>)
    requires DistinctNames(fields) && ReadsBack(t, fields, obj)
    ensures RecordReadable(t, fields) && ReadRecordFrom(t, fields, out).1.Ok?
    ensures forall k :: k in Names(fields) ==>
      k in ReadRecordFrom(t, fields, out).1.value && ReadRecordFrom(t, fields, out).1.value[k] == ValueOf(obj, k)
    decreases |fields|
  {
    if fields != [] {
      var (v, t1) := ReadState(t, fields[0].codec.value);
      var out1 := out[fields[0].name := v];
      ReadRecordLoads(t1, fields[1..], obj, out1);
      assert ReadRecordFrom(t, fields, out) == ReadRecordFrom(t1, fields[1..], out1);
      assert Names(fields) == {fields[0].name} + Names(fields[1..]);
    }
  }

  /**
   * `readRecord(fields)` over storage holding a record's bytes at the cursor
   * returns a record with exactly the shape's names, the object's value under
   * each, and ends just past those bytes.
   */
  lemma ReadRecordBack(t: BufferState, fields: seq<Field>, obj: map<string, Value>)
    requires DistinctNames(fields) && RecordRepresentable(fields, obj) && StoredAt(t, fields, obj)
    ensures RecordReadable(t, fields)
    ensures ReadRecordFrom(t, fields, map[]).1.Ok?
    ensures ReadRecordFrom(t, fields, map[]).1.value.Keys == Names(fields)
    ensures ReadRecordFrom(t, fields, map[]).0.pos == t.pos + |RecordBytes(fields, obj)|
    ensures forall k :: k in Names(fields) ==> ReadRecordFrom(t, fields, map[]).1.value[k] == ValueOf(obj, k)
  {
    ReadRecordRuns(t, fields, obj, map[]);
    StoredReadsBack(t, fields, obj);
    ReadRecordLoads(t, fields, obj, map[]);
  }

  /**
   * `writeRecord(fields, obj)` followed by `seekAbs` back to where it started
   * and `readRecord(fields)` gives back the object's value for every field of
   * the shape, and leaves the cursor where the write left it.
   */
  lemma RecordRoundTrip(s: BufferState, fields: seq<Field>, obj: map<string, Value>)
    requires RecordWritable(s, fields, obj) && DistinctNames(fields) && RecordRepresentable(fields, obj)
    requires 0 <= s.pos
    ensures WriteRecordFrom(s, fields, obj).1.None?
    ensures RecordReadable(SeekAbsState(WriteRecordFrom(s, fields, obj).0, s.pos), fields)
    ensures ReadRecordFrom(SeekAbsState(WriteRecordFrom(s, fields, obj).0, s.pos), fields, map[]).1.Ok?
    ensures ReadRecordFrom(SeekAbsState(WriteRecordFrom(s, fields, obj).0, s.pos), fields, map[]).1.value.Keys == Names(fields)
    ensures ReadRecordFrom(SeekAbsState(WriteRecordFrom(s, fields, obj).0, s.pos), fields, map[]).0.pos == WriteRecordFrom(s, fields, obj).0.pos
    ensures forall k :: k in Names(fields) ==>
      ReadRecordFrom(SeekAbsState(WriteRecordFrom(s, fields, obj).0, s.pos), fields, map[]).1.value[k] == ValueOf(obj, k)
  {
    if fields != [] {
      WriteRecordAdvances(s, fields, obj);
      WriteRecordStores(s, fields, obj);
      var w := WriteRecordFrom(s, fields, obj).0;
      var t := SeekAbsState(w, s.pos);
      assert t.storage == w.storage && t.pos == s.pos;
      ReadRecordBack(t, fields, obj);
    }
  }
}
