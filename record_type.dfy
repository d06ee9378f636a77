/**
 * The field types of record-type.js as one closed datatype: fixed-width
 * integers in both byte orders, the variable-length quantity of Standard MIDI
 * Files, the five code page 437 string fields and padding. For each it states
 * which bytes the codec's `read` consumes and returns, and which bytes its
 * `write` stores at the cursor.
 */
module RecordType {
  import opened Bytes
  import opened Ibm437

  // ---------------------------------------------------------------------------
  // Codecs, values and errors
  // ---------------------------------------------------------------------------

  datatype Endian = Little | Big

  /** The byte widths of the integer codecs. */
  type Width = w: nat | 1 <= w <= 4 witness 1

  /** One field type of the catalogue (the `{read, write, len}` objects of record-type.js). */
  datatype Codec =
    | Int(width: Width, signed: bool, order: Endian)  // int.u8 … int.s32be
    | Midi                                            // int.midi
    | FixedNoTerm(len: nat)                           // string.fixed.noTerm(len)
    | FixedReqTerm(len: nat)                          // string.fixed.reqTerm(len)
    | FixedOptTerm(len: nat)                          // string.fixed.optTerm(len)
    | VariableReqTerm(maxLen: nat)                    // string.variable.reqTerm(lenMax)
    | VariableOptTerm(maxLen: nat)                    // string.variable.optTerm(lenMax)
    | Padding(size: nat, fill: byte)                  // padding(len, val)
  {
    /**
     * The codec's `len`: what `RecordBuffer.read` and `write` add to the cursor
     * after the codec ran. It is 0 for the codecs that move the cursor themselves.
     */
    function Len(): nat {
      match this
      case Int(w, _, _) => w
      case Midi => 0
      case FixedNoTerm(n) => n
      case FixedReqTerm(n) => n
      case FixedOptTerm(n) => n
      case VariableReqTerm(_) => 0
      case VariableOptTerm(_) => 0
      case Padding(n, _) => n
    }
  }

  const U8: Codec := Int(1, false, Little)
  const S8: Codec := Int(1, true, Little)
  const U16LE: Codec := Int(2, false, Little)
  const U16BE: Codec := Int(2, false, Big)
  const S16LE: Codec := Int(2, true, Little)
  const S16BE: Codec := Int(2, true, Big)
  const U24LE: Codec := Int(3, false, Little)
  const U24BE: Codec := Int(3, false, Big)
  const S24LE: Codec := Int(3, true, Little)
  const S24BE: Codec := Int(3, true, Big)
  const U32LE: Codec := Int(4, false, Little)
  const U32BE: Codec := Int(4, false, Big)
  const S32LE: Codec := Int(4, true, Little)
  const S32BE: Codec := Int(4, true, Big)

  /**
   * What a codec reads or writes: a number, a string, a block of raw bytes
   * (padding), or `undefined`, which is what a record object gives for a
   * field it does not have.
   */
  datatype Value = Number(n: int) | Text(s: JsString) | Block(bytes: seq<byte>) | Absent

  /** The errors the library throws. */
  datatype Error =
    | UnsupportedInputKind                          // the constructor was given something else than a size or bytes
    | MissingFieldType(field: string)               // readRecord: the shape has no codec for `field`
    | UndefinedType                                 // write of a field whose codec is `undefined`
    | ValueTooLarge(value: int)                     // midi.write beyond its guard
    | NotAString                                    // a string codec given `undefined` (a TypeError in writeString)
    | FieldWriteError(field: string, cause: Error)  // writeRecord: `cause` while writing `field`

  datatype Result<T> = Ok(value: T) | Err(error: Error)

  // ---------------------------------------------------------------------------
  // Fixed-width integers
  // ---------------------------------------------------------------------------

  /** 2 to the power 8w. */
  function Pow256(w: nat): (p: nat)
    ensures p >= 1
  {
    if w == 0 then 1 else 0x100 * Pow256(w - 1)
  }

  /** The number whose base-256 digits, lowest first, are `bs`. */
  function LeValue(bs: seq<byte>): nat {
    if bs == [] then 0 else bs[0] + 0x100 * LeValue(bs[1..])
  }

  /** The lowest `w` base-256 digits of `u`, lowest first. */
  function LeDigits(u: nat, w: nat): (bs: seq<byte>)
    ensures |bs| == w
  {
    if w == 0 then [] else [u % 0x100] + LeDigits(u / 0x100, w - 1)
  }

  function Reverse(bs: seq<byte>): (r: seq<byte>)
    ensures |r| == |bs|
    ensures forall i :: 0 <= i < |bs| ==> r[i] == bs[|bs| - 1 - i]
  {
    if bs == [] then [] else Reverse(bs[1..]) + [bs[0]]
  }

  /** The bytes of a field, least significant first: as stored for little-endian, reversed for big-endian. */
  function LowFirst(bs: seq<byte>, order: Endian): (r: seq<byte>)
    ensures |r| == |bs|
  {
    if order == Little then bs else Reverse(bs)
  }

  /** The values an integer codec can hold: `[0, 2^(8w))`, or `[-2^(8w-1), 2^(8w-1))` when signed. */
  predicate IntInRange(c: Codec, v: int)
    requires c.Int?
  {
    var half: int := Pow256(c.width) / 2;
    if c.signed then -half <= v < half else 0 <= v < Pow256(c.width)
  }

  /**
   * What an integer codec's `read` returns for its `width` bytes: their
   * unsigned value in the codec's byte order, as two's complement when signed.
   */
  function DecodeInt(c: Codec, bs: seq<byte>): (v: int)
    requires c.Int? && |bs| == c.width
    ensures IntInRange(c, v)
  {
    var u := LeValue(LowFirst(bs, c.order));
    LeValueBound(LowFirst(bs, c.order));
    if c.signed && u >= Pow256(c.width) / 2 then u - Pow256(c.width) else u
  }

  /** The bytes an integer codec's `write` stores for `val`: the digits of `val mod 2^(8w)` in the codec's byte order. */
  function EncodeInt(c: Codec, val: int): (bs: seq<byte>)
    requires c.Int?
    ensures |bs| == c.width
    ensures LeValue(LowFirst(bs, c.order)) == val % Pow256(c.width)
  {
    var digits := LeDigits(val % Pow256(c.width), c.width);
    LeValueDigits(val % Pow256(c.width), c.width);
    ReverseReverse(digits);
    LowFirst(digits, c.order)
  }

  lemma {:induction false} LeValueBound(bs: seq<byte>)
    ensures LeValue(bs) < Pow256(|bs|)
  {
    if bs != [] {
      LeValueBound(bs[1..]);
    }
  }

  /** Taking `w` digits of a number below `2^(8w)` and reading them back gives the number. */
  lemma {:induction false} LeValueDigits(u: nat, w: nat)
    requires u < Pow256(w)
    ensures LeValue(LeDigits(u, w)) == u
  {
    if w > 0 {
      LeValueDigits(u / 0x100, w - 1);
      assert LeDigits(u, w)[1..] == LeDigits(u / 0x100, w - 1);
    }
  }

  /** The digits of the value of `bs` are `bs`. */
  lemma {:induction false} LeDigitsValue(bs: seq<byte>)
    ensures LeDigits(LeValue(bs), |bs|) == bs
  {
    if bs != [] {
      LeDigitsValue(bs[1..]);
      assert LeValue(bs) % 0x100 == bs[0];
      assert LeValue(bs) / 0x100 == LeValue(bs[1..]);
    }
  }

  lemma ReverseReverse(bs: seq<byte>)
    ensures Reverse(Reverse(bs)) == bs
  {
  }

  /** Reduction modulo `2^(8w)`, case by case on the four widths so that the modulus is a constant. */
  lemma ModWidth(c: Codec, v: int)
    requires c.Int? && IntInRange(c, v)
    ensures v >= 0 ==> v % Pow256(c.width) == v
    ensures v < 0 ==> v % Pow256(c.width) == v + Pow256(c.width)
  {
    if c.width == 1 {
      assert Pow256(1) == 0x100;
    } else if c.width == 2 {
      assert Pow256(2) == 0x1_0000;
    } else if c.width == 3 {
      assert Pow256(3) == 0x100_0000;
    } else {
      assert Pow256(4) == 0x1_0000_0000;
    }
  }

  /** Write-then-read gives back every value the integer codec can hold. */
  lemma IntRoundTrip(c: Codec, v: int)
    requires c.Int? && IntInRange(c, v)
    ensures DecodeInt(c, EncodeInt(c, v)) == v
  {
    ModWidth(c, v);
    ReverseReverse(EncodeInt(c, v));
  }

  /** Read-then-write stores back exactly the bytes that were read: no two byte patterns decode to one value. */
  lemma IntDecodeEncode(c: Codec, bs: seq<byte>)
    requires c.Int? && |bs| == c.width
    ensures EncodeInt(c, DecodeInt(c, bs)) == bs
  {
    var low := LowFirst(bs, c.order);
    LeValueBound(low);
    var v := DecodeInt(c, bs);
    ModWidth(c, v);
    assert v % Pow256(c.width) == LeValue(low);
    LeDigitsValue(low);
    ReverseReverse(bs);
  }

  /**
   * An integer codec's `write` (`setUint8`, `setUint16`, … on the DataView):
   * stores the `width` bytes of `val` at `offset`.
   */
  method WriteInt(dv: array<byte>, offset: nat, c: Codec, val: int)
    requires c.Int? && offset + c.width <= dv.Length
    modifies dv
    ensures dv[..] == Overwrite(old(dv[..]), offset, EncodeInt(c, val))
  {
    var w := c.width;
    ghost var digits := LeDigits(val % Pow256(w), w);
    var u: nat := val % Pow256(w);
    var i := 0;
    while i < w
      invariant 0 <= i <= w
      invariant LeDigits(u, w - i) == digits[i..]
      invariant forall j :: 0 <= j < i ==>
        dv[if c.order == Little then offset + j else offset + w - 1 - j] == digits[j]
      invariant forall j :: 0 <= j < dv.Length ==>
        (if c.order == Little then offset <= j < offset + i else offset + w - i <= j < offset + w) || dv[j] == old(dv[j])
    {
      dv[if c.order == Little then offset + i else offset + w - 1 - i] := u % 0x100;
      u := u / 0x100;
      i := i + 1;
    }
    ghost var want := Overwrite(old(dv[..]), offset, EncodeInt(c, val));
    forall j | 0 <= j < dv.Length
      ensures dv[j] == want[j]
    {
      if offset <= j < offset + w {
        if c.order == Little {
          assert dv[offset + (j - offset)] == digits[j - offset];
        } else {
          assert dv[offset + w - 1 - (w - 1 - (j - offset))] == digits[w - 1 - (j - offset)];
        }
      }
    }
    assert dv[..] == want;
  }

  // ---------------------------------------------------------------------------
  // MIDI variable-length quantities
  // ---------------------------------------------------------------------------

  /** The largest value `midi.write` accepts; it throws for anything above. */
  const MidiLimit := 0x1FFF_FFFF

  /** ToInt32: the 32-bit two's-complement integer the JavaScript shift operators work on. */
  function Int32(x: int): (r: int)
    ensures -0x8000_0000 <= r < 0x8000_0000
    ensures (r - x) % 0x1_0000_0000 == 0
  {
    (x + 0x8000_0000) % 0x1_0000_0000 - 0x8000_0000
  }

  /**
   * How many bytes `midi.read` consumes from `s` when it is at byte `i`:
   * up to and including the first byte whose high bit is clear, at most four.
   * A result beyond `|s|` means the read would run off the end.
   */
  function MidiSizeFrom(s: seq<byte>, i: nat): (r: nat)
    requires i < 4
    ensures i < r <= 4
    ensures forall j :: i <= j < r - 1 ==> j < |s| && s[j] >= 0x80
    ensures r <= |s| && r < 4 ==> s[r - 1] < 0x80
    decreases 4 - i
  {
    if i == 3 || i >= |s| || s[i] < 0x80 then i + 1
    else
      var k := MidiSizeFrom(s, i + 1);
      assert forall j :: i + 1 <= j < MidiSizeFrom(s, i + 1) - 1 ==> j < |s| && s[j] >= 0x80;
      k
  }

  /** `midi.read` stays within `s`. */
  predicate MidiReadable(s: seq<byte>) {
    MidiSizeFrom(s, 0) <= |s|
  }

  /** The low seven bits of the bytes of `bs`, most significant group first, joined into one number. */
  function Groups7(bs: seq<byte>): nat {
    if bs == [] then 0 else Groups7(bs[..|bs| - 1]) * 0x80 + bs[|bs| - 1] % 0x80
  }

  /**
   * What `midi.read` returns on `s` and how many bytes it moves the cursor:
   * one to four bytes, each but the last with its high bit set, the last with
   * its high bit clear unless four were read, and the value their seven-bit groups spell.
   */
  function MidiDecode(s: seq<byte>): (r: (nat, nat))
    requires MidiReadable(s)
    ensures 1 <= r.1 <= 4 && r.1 <= |s|
    ensures forall j :: 0 <= j < r.1 - 1 ==> s[j] >= 0x80
    ensures r.1 < 4 ==> s[r.1 - 1] < 0x80
    ensures r.0 == Groups7(s[..r.1])
  {
    var n := MidiSizeFrom(s, 0);
    (Groups7(s[..n]), n)
  }

  /** `n` with its high bit set (`n | 0x80` for a byte). */
  function SetHigh(n: byte): byte {
    if n >= 0x80 then n else n + 0x80
  }

  /**
   * The bytes the loop of `midi.write` stores from iteration `i` on, `val` being
   * the value as shifted so far and `first` whether only leading zero groups
   * were met: each iteration takes bits 21 to 28, skips them while they are
   * zero and leading (except in the last iteration), and sets the high bit
   * on all but the last.
   */
  function MidiSteps(val: int, i: nat, first: bool): seq<byte>
    requires i <= 4
    decreases 4 - i
  {
    if i == 4 then []
    else
      var n := MidiGroup(val);
      if first && n == 0 && i != 3 then MidiSteps(MidiShift(val), i + 1, true)
      else [if i < 3 then SetHigh(n) else n] + MidiSteps(MidiShift(val), i + 1, false)
  }

  /** `(val >> 21) & 0xFF`: bits 21 to 28 of the 32-bit value. */
  function MidiGroup(val: int): byte {
    (Int32(val) / 0x20_0000) % 0x100
  }

  /** `(val << 7) & 0x0FFFFFFF`: the value moved up seven bits, only its low 28 bits kept. */
  function MidiShift(val: int): int {
    (Int32(val) * 0x80) % 0x1000_0000
  }

  /** What `midi.write` stores for `val`, or the error it throws. */
  function MidiEncode(val: int): (r: Result<seq<byte>>)
    ensures r.Err? <==> val > MidiLimit
    ensures r.Err? ==> r.error == ValueTooLarge(val)
    ensures r.Ok? ==> 1 <= |r.value| <= 4
  {
    if val > MidiLimit then Err(ValueTooLarge(val)) else Ok(MidiSteps(val, 0, true))
  }

  lemma MidiStepsLength(val: int, i: nat, first: bool)
    requires i <= 4
    ensures |MidiSteps(val, i, first)| <= 4 - i
    ensures i < 4 ==> |MidiSteps(val, i, first)| >= 1
    decreases 4 - i
  {
    if i < 4 {
      MidiStepsLength(MidiShift(val), i + 1, true);
      MidiStepsLength(MidiShift(val), i + 1, false);
    }
  }

  /** The shortest big-endian base-128 digits of `v`. */
  function Base128(v: nat): (d: seq<byte>)
    ensures |d| >= 1
    ensures forall i :: 0 <= i < |d| ==> d[i] < 0x80
  {
    if v < 0x80 then [v] else Base128(v / 0x80) + [v % 0x80]
  }

  /** The variable-length quantity of the Standard MIDI File format: base-128 digits, the high bit set on all but the last. */
  function MidiReference(v: nat): (e: seq<byte>)
    ensures |e| == |Base128(v)|
  {
    var d := Base128(v);
    seq(|d|, i requires 0 <= i < |d| => if i < |d| - 1 then d[i] + 0x80 else d[i])
  }

  /** One iteration of `midi.write` on a value whose bits 21 to 28 are `g`: it takes `g` and moves the bits below up by seven. */
  lemma MidiStep(val: int, g: nat, low: nat)
    requires g < 0x100 && low < 0x20_0000 && val == g * 0x20_0000 + low
    ensures MidiGroup(val) == g
    ensures MidiShift(val) == low * 0x80
  {
    assert Int32(val) == val;
    assert val / 0x20_0000 == g;
    assert val * 0x80 == g * 0x1000_0000 + low * 0x80;
  }

  /** The last iterations of `midi.write` once the value has been split into seven-bit groups. */
  lemma MidiStepsLast(c: nat, d: nat)
    requires c < 0x80 && d < 0x80
    ensures MidiSteps(d * 0x20_0000, 3, false) == [d]
    ensures MidiSteps(d * 0x20_0000, 3, true) == [d]
    ensures MidiSteps(c * 0x20_0000 + d * 0x4000, 2, false) == [c + 0x80, d]
    ensures MidiSteps(c * 0x20_0000 + d * 0x4000, 2, true) == if c == 0 then [d] else [c + 0x80, d]
  {
    MidiStep(d * 0x20_0000, d, 0);
    MidiStep(c * 0x20_0000 + d * 0x4000, c, d * 0x4000);
  }

  /** All four iterations of `midi.write` on a value given by its groups; `a` may use bit 28 too. */
  lemma MidiStepsGroups(a: nat, b: nat, c: nat, d: nat)
    requires a < 0x100 && b < 0x80 && c < 0x80 && d < 0x80
    ensures MidiSteps(a * 0x20_0000 + b * 0x4000 + c * 0x80 + d, 0, true)
         == if a != 0 then [SetHigh(a), b + 0x80, c + 0x80, d]
            else if b != 0 then [b + 0x80, c + 0x80, d] else if c != 0 then [c + 0x80, d] else [d]
  {
    MidiStepsLast(c, d);
    var v1 := b * 0x20_0000 + c * 0x4000 + d * 0x80;
    MidiStep(v1, b, c * 0x4000 + d * 0x80);
    assert MidiSteps(v1, 1, false) == [b + 0x80, c + 0x80, d];
    assert MidiSteps(v1, 1, true) == if b != 0 then [b + 0x80, c + 0x80, d] else if c != 0 then [c + 0x80, d] else [d];
    MidiStep(a * 0x20_0000 + b * 0x4000 + c * 0x80 + d, a, b * 0x4000 + c * 0x80 + d);
  }

  lemma DivMod128(x: int, q: int, r: int)
    requires 0 <= r < 0x80 && x == q * 0x80 + r
    ensures x / 0x80 == q && x % 0x80 == r
  {
  }

  /** The base-128 digits of a value given by its four seven-bit groups. */
  lemma Base128Groups(a: nat, b: nat, c: nat, d: nat)
    requires a < 0x80 && b < 0x80 && c < 0x80 && d < 0x80
    ensures Base128(a * 0x20_0000 + b * 0x4000 + c * 0x80 + d)
         == if a != 0 then [a, b, c, d] else if b != 0 then [b, c, d] else if c != 0 then [c, d] else [d]
  {
    var x := a * 0x80 + b;
    var y := a * 0x4000 + b * 0x80 + c;
    var z := a * 0x20_0000 + b * 0x4000 + c * 0x80 + d;
    DivMod128(z, y, d);
    DivMod128(y, x, c);
    DivMod128(x, a, b);
    if a != 0 {
      assert Base128(x) == [a, b];
      assert Base128(y) == [a, b, c];
    } else if b != 0 {
      assert Base128(y) == [b, c];
    } else if c != 0 {
      assert Base128(z) == [c, d];
    }
  }

  /** Every value `midi.write` accepts is spelled by three seven-bit groups below an eight-bit one, which is below 0x80 when `v` is below 2^28. */
  lemma MidiGroupsOf(v: int) returns (a: nat, b: nat, c: nat, d: nat)
    requires 0 <= v <= MidiLimit
    ensures a < 0x100 && b < 0x80 && c < 0x80 && d < 0x80
    ensures v <= 0x0FFF_FFFF <==> a < 0x80
    ensures v == a * 0x20_0000 + b * 0x4000 + c * 0x80 + d
  {
    var w1 := v / 0x80;
    d := v % 0x80;
    var w2 := w1 / 0x80;
    c := w1 % 0x80;
    a := w2 / 0x80;
    b := w2 % 0x80;
  }

  /** For values up to 2^28 - 1 `midi.write` stores exactly the Standard MIDI File variable-length quantity. */
  lemma MidiEncodeIsReference(v: int)
    requires 0 <= v <= 0x0FFF_FFFF
    ensures MidiEncode(v) == Ok(MidiReference(v))
  {
    var a, b, c, d := MidiGroupsOf(v);
    MidiStepsGroups(a, b, c, d);
    Base128Groups(a, b, c, d);
    var e := MidiReference(v);
    if a != 0 {
      assert e == [a + 0x80, b + 0x80, c + 0x80, d];
    } else if b != 0 {
      assert e == [b + 0x80, c + 0x80, d];
    } else if c != 0 {
      assert e == [c + 0x80, d];
    } else {
      assert e == [d];
    }
  }

  /** Appending a byte appends its seven-bit group. */
  lemma Groups7Snoc(bs: seq<byte>, z: byte)
    ensures Groups7(bs + [z]) == Groups7(bs) * 0x80 + z % 0x80
  {
    assert (bs + [z])[..|bs|] == bs;
  }
  /** The seven-bit groups of two bytes, joined. */
  lemma Groups7Two(y: byte, z: byte)
    ensures Groups7([y, z]) == (y % 0x80) * 0x80 + z % 0x80
  {
    Groups7Snoc([y], z);
    assert [y] + [z] == [y, z];
    assert [y][..0] == [];
  }

  /** The seven-bit groups of three bytes, joined. */
  lemma Groups7Three(x: byte, y: byte, z: byte)
    ensures Groups7([x, y, z]) == (x % 0x80) * 0x4000 + (y % 0x80) * 0x80 + z % 0x80
  {
    Groups7Snoc([x, y], z);
    assert [x, y] + [z] == [x, y, z];
    Groups7Two(x, y);
  }

  /** The seven-bit groups of one to four bytes, joined. */
  lemma Groups7Small(w: byte, x: byte, y: byte, z: byte)
    ensures Groups7([z]) == z % 0x80
    ensures Groups7([y, z]) == (y % 0x80) * 0x80 + z % 0x80
    ensures Groups7([x, y, z]) == (x % 0x80) * 0x4000 + (y % 0x80) * 0x80 + z % 0x80
    ensures Groups7([w, x, y, z]) == (w % 0x80) * 0x20_0000 + (x % 0x80) * 0x4000 + (y % 0x80) * 0x80 + z % 0x80
  {
    assert [z][..0] == [];
    Groups7Two(y, z);
    Groups7Three(x, y, z);
    Groups7Snoc([w, x, y], z);
    assert [w, x, y] + [z] == [w, x, y, z];
    Groups7Three(w, x, y);
  }


  /** Reading back a one-byte variable-length quantity, whatever follows it. */
  lemma MidiDecode1(d: nat, rest: seq<byte>)
    requires d < 0x80
    ensures MidiReadable([d] + rest) && MidiDecode([d] + rest) == (d, 1)
  {
    Groups7Small(0, 0, 0, d);
    var s := [d] + rest;
    assert MidiSizeFrom(s, 0) == 1;
    assert s[..1] == [d];
  }

  /** Reading back a two-byte variable-length quantity, whatever follows it. */
  lemma MidiDecode2(c: nat, d: nat, rest: seq<byte>)
    requires c < 0x80 && d < 0x80
    ensures MidiReadable([c + 0x80, d] + rest) && MidiDecode([c + 0x80, d] + rest) == (c * 0x80 + d, 2)
  {
    Groups7Small(0, 0, c + 0x80, d);
    var s := [c + 0x80, d] + rest;
    assert MidiSizeFrom(s, 1) == 2;
    assert s[..2] == [c + 0x80, d];
  }

  /** Reading back a three-byte variable-length quantity, whatever follows it. */
  lemma MidiDecode3(b: nat, c: nat, d: nat, rest: seq<byte>)
    requires b < 0x80 && c < 0x80 && d < 0x80
    ensures MidiReadable([b + 0x80, c + 0x80, d] + rest)
    ensures MidiDecode([b + 0x80, c + 0x80, d] + rest) == (b * 0x4000 + c * 0x80 + d, 3)
  {
    Groups7Small(0, b + 0x80, c + 0x80, d);
    var s := [b + 0x80, c + 0x80, d] + rest;
    assert MidiSizeFrom(s, 2) == 3 && MidiSizeFrom(s, 1) == 3;
    assert s[..3] == [b + 0x80, c + 0x80, d];
  }

  /** Reading back a four-byte variable-length quantity, whatever follows it. */
  lemma MidiDecode4(a: nat, b: nat, c: nat, d: nat, rest: seq<byte>)
    requires a < 0x80 && b < 0x80 && c < 0x80 && d < 0x80
    ensures MidiReadable([a + 0x80, b + 0x80, c + 0x80, d] + rest)
    ensures MidiDecode([a + 0x80, b + 0x80, c + 0x80, d] + rest) == (a * 0x20_0000 + b * 0x4000 + c * 0x80 + d, 4)
  {
    var e := [a + 0x80, b + 0x80, c + 0x80, d];
    Groups7Small(a + 0x80, b + 0x80, c + 0x80, d);
    assert (a + 0x80) % 0x80 == a && (b + 0x80) % 0x80 == b && (c + 0x80) % 0x80 == c;
    assert Groups7(e) == a * 0x20_0000 + b * 0x4000 + c * 0x80 + d;
    var s := e + rest;
    assert s[0] == a + 0x80 && s[1] == b + 0x80 && s[2] == c + 0x80;
    assert MidiSizeFrom(s, 3) == 4;
    assert MidiSizeFrom(s, 2) == 4;
    assert MidiSizeFrom(s, 1) == 4;
    assert MidiSizeFrom(s, 0) == 4;
    assert s[..4] == e;
  }

  /** Write-then-read gives back every value up to 2^28 - 1 and moves the cursor past exactly the bytes written. */
  lemma MidiRoundTrip(v: int, rest: seq<byte>)
    requires 0 <= v <= 0x0FFF_FFFF
    ensures MidiEncode(v).Ok?
    ensures MidiReadable(MidiEncode(v).value + rest)
    ensures MidiDecode(MidiEncode(v).value + rest) == (v, |MidiEncode(v).value|)
  {
    var a, b, c, d := MidiGroupsOf(v);
    MidiStepsGroups(a, b, c, d);
    var e := MidiSteps(v, 0, true);
    assert MidiEncode(v) == Ok(e);
    if a != 0 {
      assert e == [a + 0x80, b + 0x80, c + 0x80, d];
      MidiDecode4(a, b, c, d, rest);
    } else if b != 0 {
      assert e == [b + 0x80, c + 0x80, d];
      MidiDecode3(b, c, d, rest);
    } else if c != 0 {
      assert e == [c + 0x80, d];
      MidiDecode2(c, d, rest);
    } else {
      assert e == [d];
      MidiDecode1(d, rest);
    }
  }

  /**
   * Between 2^28 and the guard `midi.write` accepts the value but its top group
   * has eight bits, whose highest doubles as the continuation bit: the value
   * read back has lost bit 28.
   */
  lemma MidiHighBitLost(v: int, rest: seq<byte>)
    requires 0x1000_0000 <= v <= MidiLimit
    ensures MidiEncode(v).Ok? && |MidiEncode(v).value| == 4
    ensures MidiReadable(MidiEncode(v).value + rest)
    ensures MidiDecode(MidiEncode(v).value + rest) == (v - 0x1000_0000, 4)
  {
    var a, b, c, d := MidiGroupsOf(v);
    MidiStepsGroups(a, b, c, d);
    var e := MidiSteps(v, 0, true);
    assert MidiEncode(v) == Ok(e);
    assert e == [(a - 0x80) + 0x80, b + 0x80, c + 0x80, d];
    MidiDecode4(a - 0x80, b, c, d, rest);
  }

  /** The smallest such value: 2^28 is stored as 80 80 80 00, which reads back as 0. */
  lemma MidiCounterexample()
    ensures MidiEncode(0x1000_0000) == Ok([0x80, 0x80, 0x80, 0x00])
    ensures MidiDecode([0x80, 0x80, 0x80, 0x00]) == (0, 4)
  {
    MidiStepsGroups(0x80, 0, 0, 0);
    assert MidiSteps(0x1000_0000, 0, true) == [0x80, 0x80, 0x80, 0x00];
    MidiDecode4(0, 0, 0, 0, []);
    assert [0x80, 0x80, 0x80, 0x00] + [] == [0x80, 0x80, 0x80, 0x00];
  }

  /** `midi.read` on the DataView at `pos`: the value and the cursor just past the bytes consumed. */
  method MidiRead(dv: array<byte>, pos: nat) returns (v: nat, next: nat)
    requires pos <= dv.Length && MidiReadable(dv[pos..])
    ensures v == MidiDecode(dv[pos..]).0
    ensures next == pos + MidiDecode(dv[pos..]).1
  {
    ghost var s := dv[pos..];
    ghost var size := MidiSizeFrom(s, 0);
    v := 0;
    var i := 0;
    while i < 4
      invariant 0 <= i <= size
      invariant i < 4 ==> MidiSizeFrom(s, i) == size
      invariant i == 4 ==> size == 4
      invariant v == Groups7(s[..i])
    {
      var n := dv[pos + i];
      assert n == s[i] && s[..i + 1] == s[..i] + [s[i]];
      Groups7Snoc(s[..i], n);
      v := v * 0x80 + n % 0x80;
      i := i + 1;
      if n < 0x80 {
        break;
      }
    }
    next := pos + i;
  }

  /**
   * `midi.write` at `pos`: throws for a value above the guard; otherwise
   * stores the bytes `MidiEncode` gives and returns the cursor just past them.
   */
  method MidiWrite(dv: array<byte>, pos: nat, val: int) returns (r: Result<nat>)
    requires MidiEncode(val).Ok? ==> pos + |MidiEncode(val).value| <= dv.Length
    modifies dv
    ensures r.Err? <==> MidiEncode(val).Err?
    ensures r.Err? ==> r.error == MidiEncode(val).error && dv[..] == old(dv[..])
    ensures r.Ok? ==> r.value == pos + |MidiEncode(val).value|
    ensures r.Ok? ==> dv[..] == Overwrite(old(dv[..]), pos, MidiEncode(val).value)
  {
    if val > MidiLimit {
      return Err(ValueTooLarge(val));
    }
    ghost var e := MidiSteps(val, 0, true);
    var v := val;
    var first := true;
    var p := pos;
    var i := 0;
    while i < 4
      invariant 0 <= i <= 4 && pos <= p <= pos + |e|
      invariant MidiSteps(v, i, first) == e[p - pos..]
      invariant forall j :: pos <= j < p ==> dv[j] == e[j - pos]
      invariant forall j :: 0 <= j < dv.Length && !(pos <= j < p) ==> dv[j] == old(dv[j])
    {
      MidiStepsLength(v, i, first);
      var n := MidiGroup(v);
      ghost var steps := MidiSteps(v, i, first);
      v := MidiShift(v);
      if !(first && n == 0 && i != 3) {
        first := false;
        if i < 3 {
          n := SetHigh(n);
        }
        assert steps == [n] + MidiSteps(v, i + 1, false);
        dv[p] := n;
        p := p + 1;
      }
      i := i + 1;
    }
    ghost var want := Overwrite(old(dv[..]), pos, e);
    assert forall j :: 0 <= j < dv.Length ==> dv[j] == want[j];
    assert dv[..] == want;
    return Ok(p);
  }

  // ---------------------------------------------------------------------------
  // Whole fields: what `type.read(rb)` returns and what `type.write(rb, v)` stores
  // ---------------------------------------------------------------------------

  /** The codecs that take a string. */
  predicate IsString(c: Codec) {
    c.FixedNoTerm? || c.FixedReqTerm? || c.FixedOptTerm? || c.VariableReqTerm? || c.VariableOptTerm?
  }

  /** The number of bytes a string codec covers: its `len`, or `lenMax` for a variable-length one. */
  function Span(c: Codec): nat {
    match c
    case VariableReqTerm(n) => n
    case VariableOptTerm(n) => n
    case _ => c.Len()
  }

  /**
   * The codec's `read`, with the cursor at `pos` of the storage `st`, stays
   * inside `st` (outside it the DataView throws a RangeError).
   */
  predicate Readable(c: Codec, st: seq<byte>, pos: int) {
    match c
    case Int(w, _, _) => 0 <= pos && pos + w <= |st|
    case Midi => 0 <= pos <= |st| && MidiReadable(st[pos..])
    case FixedNoTerm(n) => ScanInBounds(st, pos, n, false)
    case FixedReqTerm(n) => ScanInBounds(st, pos, n, true)
    case FixedOptTerm(n) => ScanInBounds(st, pos, n, true)
    case VariableReqTerm(n) => ScanInBounds(st, pos, n, true)
    case VariableOptTerm(n) => ScanInBounds(st, pos, n, true)
    case Padding(n, _) => 0 <= pos && pos + n <= |st|
  }

  /**
   * What the codec's `read` returns with the cursor at `pos`, and how far it
   * moves the cursor itself (before `RecordBuffer.read` adds the codec's `len`).
   */
  function Decode(c: Codec, st: seq<byte>, pos: int): (r: (Value, nat))
    requires Readable(c, st, pos)
    ensures c.Int? ==> r.0.Number? && IntInRange(c, r.0.n) && r.1 == 0
    ensures c.Midi? ==> r.0.Number? && 1 <= r.1 <= 4 && r.0.n < 0x1000_0000
    ensures IsString(c) ==> r.0.Text? && |r.0.s| <= Span(c)
    ensures (c.VariableReqTerm? || c.VariableOptTerm?) ==> r.1 == |r.0.s| + 1
    ensures (c.Int? || c.Padding? || c.FixedNoTerm? || c.FixedReqTerm? || c.FixedOptTerm?) ==> r.1 == 0
    ensures c.Padding? ==> r.0 == Block(st[pos..pos + c.size])
  {
    match c
    case Int(w, _, _) => (Number(DecodeInt(c, st[pos..pos + w])), 0)
    case Midi =>
      var (v, n) := MidiDecode(st[pos..]);
      MidiValueBound(st[pos..][..n]);
      (Number(v), n)
    case FixedNoTerm(n) => (Text(DecodeString(Window(st, pos, n), false)), 0)
    case FixedReqTerm(n) => (Text(DecodeString(Window(st, pos, n), true)), 0)
    case FixedOptTerm(n) => (Text(DecodeString(Window(st, pos, n), true)), 0)
    case VariableReqTerm(n) =>
      var s := DecodeString(Window(st, pos, n), true);
      (Text(s), |s| + 1)
    case VariableOptTerm(n) =>
      var s := DecodeString(Window(st, pos, n), true);
      (Text(s), |s| + 1)
    case Padding(n, _) => (Block(st[pos..pos + n]), 0)
  }

  /** Four seven-bit groups make less than 2^28. */
  lemma {:induction false} MidiValueBound(bs: seq<byte>)
    requires |bs| <= 4
    ensures Groups7(bs) < Pow128(|bs|)
  {
    if bs != [] {
      MidiValueBound(bs[..|bs| - 1]);
    }
  }

  function Pow128(k: nat): nat {
    if k == 0 then 1 else 0x80 * Pow128(k - 1)
  }

  /** The values the codec's `write` takes without a JavaScript type coercion: numbers (or `undefined`) for the integer codecs, strings (or `undefined`) for the string codecs, anything for padding. */
  predicate Accepts(c: Codec, v: Value) {
    if c.Padding? then true
    else if IsString(c) then v.Text? || v.Absent?
    else v.Number? || v.Absent?
  }

  /** The string `undefined + '\u0000'` starts with in `variable.optTerm`'s write. */
  const UndefinedText: JsString := [0x75, 0x6E, 0x64, 0x65, 0x66, 0x69, 0x6E, 0x65, 0x64]

  /**
   * The bytes the codec's `write` stores at the cursor for `v` (the cursor
   * ends up just past them), or the error it throws. `undefined` is stored as 0
   * by the integer codecs, which see it as NaN, and as the text "undefined" by
   * `variable.optTerm`, which appends the terminator to it as a string.
   */
  function Encode(c: Codec, v: Value): (r: Result<seq<byte>>)
    requires Accepts(c, v)
    ensures r.Err? <==> (c.Midi? && v.Number? && v.n > MidiLimit) || (IsString(c) && !c.VariableOptTerm? && v.Absent?)
    ensures r.Ok? && c.Len() > 0 ==> |r.value| == c.Len()
    ensures r.Ok? && c.Midi? ==> 1 <= |r.value| <= 4
    ensures r.Ok? && IsString(c) ==> |r.value| <= Span(c)
  {
    match c
    case Int(_, _, _) => Ok(EncodeInt(c, if v.Number? then v.n else 0))
    case Midi => MidiEncode(if v.Number? then v.n else 0)
    case FixedNoTerm(n) => if v.Absent? then Err(NotAString) else Ok(FixedBytes(v.s, n, Embed))
    case FixedReqTerm(n) => if v.Absent? then Err(NotAString) else Ok(FixedBytes(v.s, n, Reserve))
    case FixedOptTerm(n) => if v.Absent? then Err(NotAString) else Ok(FixedBytes(v.s, n, Embed))
    case VariableReqTerm(n) => if v.Absent? then Err(NotAString) else Ok(StringBytes(v.s, n, Reserve, false))
    case VariableOptTerm(n) => Ok(StringBytes((if v.Absent? then UndefinedText else v.s) + [0], n, Stop, false))
    case Padding(n, fill) => Ok(Repeat(fill, n))
  }

  /** What `writeString` stores for a fixed-length field: always `len` bytes, since it pads. */
  function FixedBytes(s: JsString, len: nat, nullTerm: NullTerm): (r: seq<byte>)
    ensures |r| == len
  {
    StringBytes(s, len, nullTerm, true)
  }

  // ---------------------------------------------------------------------------
  // What the string codecs store
  // ---------------------------------------------------------------------------

  /** A string code page 437 can store and read back: every character in the table, none of them U+0000. */
  predicate Storable(s: JsString) {
    forall i :: 0 <= i < |s| ==> s[i] != 0 && Mappable(s[i])
  }

  /** `fixed.noTerm` and `fixed.optTerm` store `len` bytes: the first `len` characters, zero-padded; a U+0000 in the string is stored as a zero like any other character, and no terminator is added when the string fills the field. */
  lemma NoTermWrite(s: JsString, len: nat)
    ensures FixedBytes(s, len, Embed) == Encoded(s[..Min(|s|, len)]) + Zeros(len - Min(|s|, len))
    ensures forall i :: 0 <= i < Min(|s|, len) && s[i] == 0 ==> FixedBytes(s, len, Embed)[i] == 0
    ensures |s| >= len ==> FixedBytes(s, len, Embed) == Encoded(s[..len])
  {
    IndexOfZero(0);
  }

  /** `fixed.reqTerm` stores `len` bytes ending with a zero: at most `len - 1` characters, up to the first U+0000, then zeros. */
  lemma ReqTermWrite(s: JsString, len: nat)
    requires len > 0
    ensures var k := Min(NullIndex(s), len - 1);
      FixedBytes(s, len, Reserve) == Encoded(s[..k]) + Zeros(len - k)
    ensures FixedBytes(s, len, Reserve)[len - 1] == 0
  {
  }

  /** `variable.reqTerm` stores at most `lenMax - 1` characters, up to the first U+0000, then one zero. */
  lemma VariableReqTermWrite(s: JsString, lenMax: nat)
    ensures lenMax == 0 ==> StringBytes(s, lenMax, Reserve, false) == []
    ensures lenMax > 0 ==> var k := Min(NullIndex(s), lenMax - 1);
      StringBytes(s, lenMax, Reserve, false) == Encoded(s[..k]) + [0]
  {
    if lenMax > 0 {
      assert Zeros(1) == [0];
    }
  }

  /** Appending U+0000 never moves the first U+0000. */
  lemma {:induction false} NullIndexAppendNull(s: JsString)
    ensures NullIndex(s + [0]) == NullIndex(s)
  {
    if s != [] && s[0] != 0 {
      assert (s + [0])[1..] == s[1..] + [0];
      NullIndexAppendNull(s[1..]);
    }
  }

  /** `variable.optTerm` stores at most `lenMax` characters, up to the first U+0000, and a zero only when fewer than `lenMax` were stored. */
  lemma VariableOptTermWrite(s: JsString, lenMax: nat)
    ensures var k := Min(NullIndex(s), lenMax);
      StringBytes(s + [0], lenMax, Stop, false) == Encoded(s[..k]) + (if k < lenMax then [0] else [])
  {
    NullIndexAppendNull(s);
    var k := Min(NullIndex(s), lenMax);
    assert (s + [0])[..k] == s[..k];
    assert Zeros(1) == [0] && Zeros(0) == [];
  }

  /** No character of a storable string is stored as a zero. */
  lemma EncodedNonZero(s: JsString)
    requires Storable(s)
    ensures forall i :: 0 <= i < |s| ==> Encoded(s)[i] != 0
  {
    forall i | 0 <= i < |s|
      ensures Encoded(s)[i] != 0
    {
      IndexOfZero(s[i]);
    }
  }

  lemma NullIndexStorable(s: JsString)
    requires Storable(s)
    ensures NullIndex(s) == |s|
  {
  }

  /** Bytes that start with a storable string, followed by a zero or by nothing, read back with a terminator as that string. */
  lemma DecodeTerminated(w: seq<byte>, s: JsString)
    requires Storable(s) && |s| <= |w| && w[..|s|] == Encoded(s)
    requires |s| < |w| ==> w[|s|] == 0
    ensures DecodeString(w, true) == s
  {
    EncodedNonZero(s);
    assert forall i :: 0 <= i < |s| ==> w[i] == Encoded(s)[i];
    assert NullIndex(w) == |s|;
    FromArrayToU8(s);
  }

  // ---------------------------------------------------------------------------
  // Write-then-read
  // ---------------------------------------------------------------------------

  /**
   * The values a codec gives back unchanged: in range for the integers, below
   * 2^28 for midi, storable strings short enough to keep their terminator
   * (exactly `len` long for `fixed.noTerm`), and the fill bytes for padding.
   */
  predicate Representable(c: Codec, v: Value) {
    match c
    case Int(_, _, _) => v.Number? && IntInRange(c, v.n)
    case Midi => v.Number? && 0 <= v.n <= 0x0FFF_FFFF
    case FixedNoTerm(n) => v.Text? && |v.s| == n && forall i :: 0 <= i < n ==> Mappable(v.s[i])
    case FixedReqTerm(n) => v.Text? && |v.s| < n && Storable(v.s)
    case FixedOptTerm(n) => v.Text? && |v.s| <= n && Storable(v.s)
    case VariableReqTerm(n) => v.Text? && |v.s| < n && Storable(v.s)
    case VariableOptTerm(n) => v.Text? && |v.s| < n && Storable(v.s)
    case Padding(n, fill) => v == Block(Repeat(fill, n))
  }

  /**
   * Wherever the bytes a codec's `write` stores for a representable value lie
   * in the storage, its `read` there returns that value, and the cursor moves
   * past exactly the bytes written, whatever follows them.
   */
  lemma FieldRoundTrip(c: Codec, v: Value, st: seq<byte>, pos: int)
    requires Accepts(c, v) && Representable(c, v) && Encode(c, v).Ok?
    requires 0 <= pos && pos + |Encode(c, v).value| <= |st|
    requires st[pos..pos + |Encode(c, v).value|] == Encode(c, v).value
    ensures Readable(c, st, pos)
    ensures Decode(c, st, pos).0 == v
    ensures Decode(c, st, pos).1 + c.Len() == |Encode(c, v).value|
  {
    if c.Int? {
      IntFieldRoundTrip(c, v, st, pos);
    } else if c.Midi? {
      MidiFieldRoundTrip(c, v, st, pos);
    } else if c.FixedNoTerm? || c.FixedReqTerm? || c.FixedOptTerm? {
      FixedFieldRoundTrip(c, v, st, pos);
    } else if c.VariableReqTerm? || c.VariableOptTerm? {
      VariableFieldRoundTrip(c, v, st, pos);
    }
  }

  lemma IntFieldRoundTrip(c: Codec, v: Value, st: seq<byte>, pos: int)
    requires c.Int?
    requires Accepts(c, v) && Representable(c, v) && Encode(c, v).Ok?
    requires 0 <= pos && pos + |Encode(c, v).value| <= |st|
    requires st[pos..pos + |Encode(c, v).value|] == Encode(c, v).value
    ensures Readable(c, st, pos)
    ensures Decode(c, st, pos).0 == v
    ensures Decode(c, st, pos).1 + c.Len() == |Encode(c, v).value|
  {
    IntRoundTrip(c, v.n);
  }

  lemma MidiFieldRoundTrip(c: Codec, v: Value, st: seq<byte>, pos: int)
    requires c.Midi?
    requires Accepts(c, v) && Representable(c, v) && Encode(c, v).Ok?
    requires 0 <= pos && pos + |Encode(c, v).value| <= |st|
    requires st[pos..pos + |Encode(c, v).value|] == Encode(c, v).value
    ensures Readable(c, st, pos)
    ensures Decode(c, st, pos).0 == v
    ensures Decode(c, st, pos).1 + c.Len() == |Encode(c, v).value|
  {
    var bs := Encode(c, v).value;
    assert st[pos..] == bs + st[pos + |bs|..];
    MidiRoundTrip(v.n, st[pos + |bs|..]);
  }

  lemma FixedFieldRoundTrip(c: Codec, v: Value, st: seq<byte>, pos: int)
    requires c.FixedNoTerm? || c.FixedReqTerm? || c.FixedOptTerm?
    requires Accepts(c, v) && Representable(c, v) && Encode(c, v).Ok?
    requires 0 <= pos && pos + |Encode(c, v).value| <= |st|
    requires st[pos..pos + |Encode(c, v).value|] == Encode(c, v).value
    ensures Readable(c, st, pos)
    ensures Decode(c, st, pos).0 == v
    ensures Decode(c, st, pos).1 + c.Len() == |Encode(c, v).value|
  {
    match c
    case FixedNoTerm(n) => NoTermRoundTrip(v.s, n, st, pos);
    case FixedReqTerm(n) => ReqTermRoundTrip(v.s, n, st, pos);
    case FixedOptTerm(n) => OptTermRoundTrip(v.s, n, st, pos);
  }

  lemma VariableFieldRoundTrip(c: Codec, v: Value, st: seq<byte>, pos: int)
    requires c.VariableReqTerm? || c.VariableOptTerm?
    requires Accepts(c, v) && Representable(c, v) && Encode(c, v).Ok?
    requires 0 <= pos && pos + |Encode(c, v).value| <= |st|
    requires st[pos..pos + |Encode(c, v).value|] == Encode(c, v).value
    ensures Readable(c, st, pos)
    ensures Decode(c, st, pos).0 == v
    ensures Decode(c, st, pos).1 + c.Len() == |Encode(c, v).value|
  {
    NullIndexStorable(v.s);
    assert v.s[..|v.s|] == v.s;
    if c.VariableReqTerm? {
      VariableReqTermWrite(v.s, c.maxLen);
    } else {
      VariableOptTermWrite(v.s, c.maxLen);
    }
    VariableRoundTrip(v.s, c.maxLen, st, pos);
  }

  lemma NoTermRoundTrip(s: JsString, len: nat, st: seq<byte>, pos: int)
    requires |s| == len && forall i :: 0 <= i < len ==> Mappable(s[i])
    requires 0 <= pos && pos + len <= |st| && st[pos..pos + len] == FixedBytes(s, len, Embed)
    ensures DecodeString(Window(st, pos, len), false) == s
  {
    NoTermWrite(s, len);
    assert s[..len] == s;
    FromArrayToU8(s);
  }

  lemma ReqTermRoundTrip(s: JsString, len: nat, st: seq<byte>, pos: int)
    requires |s| < len && Storable(s)
    requires 0 <= pos && pos + len <= |st| && st[pos..pos + len] == FixedBytes(s, len, Reserve)
    ensures DecodeString(Window(st, pos, len), true) == s
  {
    ReqTermWrite(s, len);
    NullIndexStorable(s);
    var bs := FixedBytes(s, len, Reserve);
    assert Window(st, pos, len) == bs;
    assert s[..|s|] == s && bs[..|s|] == Encoded(s);
    DecodeTerminated(bs, s);
  }

  lemma OptTermRoundTrip(s: JsString, len: nat, st: seq<byte>, pos: int)
    requires |s| <= len && Storable(s)
    requires 0 <= pos && pos + len <= |st| && st[pos..pos + len] == FixedBytes(s, len, Embed)
    ensures DecodeString(Window(st, pos, len), true) == s
  {
    NoTermWrite(s, len);
    var bs := FixedBytes(s, len, Embed);
    assert s[..|s|] == s && bs[..|s|] == Encoded(s);
    DecodeTerminated(bs, s);
  }

  /** Read-back of the bytes both variable-length string codecs store for a short storable string. */
  lemma VariableRoundTrip(s: JsString, lenMax: nat, st: seq<byte>, pos: int)
    requires Storable(s) && |s| < lenMax
    requires 0 <= pos && pos + |s| + 1 <= |st| && st[pos..pos + |s| + 1] == Encoded(s) + [0]
    ensures ScanInBounds(st, pos, lenMax, true)
    ensures DecodeString(Window(st, pos, lenMax), true) == s
  {
    var w := Window(st, pos, lenMax);
    assert st[pos + |s|] == (Encoded(s) + [0])[|s|] == 0;
    assert |w| > |s| && w[|s|] == 0;
    assert w[..|s|] == Encoded(s) by {
      forall i | 0 <= i < |s|
        ensures w[i] == Encoded(s)[i]
      {
        assert w[i] == st[pos + i] == (Encoded(s) + [0])[i];
      }
    }
    DecodeTerminated(w, s);
  }

  /**
   * A string that fills a `variable.optTerm` field is stored without a
   * terminator, but reading it back still moves the cursor one byte further
   * than the write did, over the byte that follows the field.
   */
  lemma VariableOptTermFull(s: JsString, lenMax: nat, st: seq<byte>, pos: int)
    requires Storable(s) && |s| == lenMax
    requires 0 <= pos && pos + lenMax <= |st| && st[pos..pos + lenMax] == Encode(VariableOptTerm(lenMax), Text(s)).value
    ensures |Encode(VariableOptTerm(lenMax), Text(s)).value| == lenMax
    ensures Readable(VariableOptTerm(lenMax), st, pos)
    ensures Decode(VariableOptTerm(lenMax), st, pos) == (Text(s), lenMax + 1)
  {
    VariableOptTermWrite(s, lenMax);
    NullIndexStorable(s);
    assert s[..lenMax] == s;
    DecodeTerminated(st[pos..pos + lenMax], s);
  }
}
