/**
 * Code page 437 (the character set of the IBM PC) and the string transcoding
 * of record-type.js built on it: the table `mapIBM437`, `string.fromArray`,
 * `string.toU8`, `dataViewToString` and `writeString`.
 */
module Ibm437 {
  import opened Bytes

  /** A UTF-16 code unit: one element of a JavaScript string, as `charCodeAt` returns it. */
  type Char16 = c: int | 0 <= c < 0x1_0000

  /** A JavaScript string, as its sequence of code units. */
  type JsString = seq<Char16>

  // ---------------------------------------------------------------------------
  // The table
  // ---------------------------------------------------------------------------

  /** `mapIBM437[b]`: the character code page 437 shows for byte `b`. Bytes 0x20 to 0x7E stand for themselves. */
  function Cp437(b: byte): Char16 {
    if b < 0x20 then ControlGlyph(b)
    else if b < 0x7F then b
    else HighGlyph(b)
  }

  /** The glyphs of bytes 0x00 to 0x1F (byte 0x00 is U+0000, the others are pictures). */
  function ControlGlyph(b: byte): Char16
    requires b < 0x20
  {
    match b
    case 0x00 => 0x0000
    case 0x01 => 0x263A
    case 0x02 => 0x263B
    case 0x03 => 0x2665
    case 0x04 => 0x2666
    case 0x05 => 0x2663
    case 0x06 => 0x2660
    case 0x07 => 0x2022
    case 0x08 => 0x25D8
    case 0x09 => 0x25CB
    case 0x0A => 0x25D9
    case 0x0B => 0x2642
    case 0x0C => 0x2640
    case 0x0D => 0x266A
    case 0x0E => 0x266B
    case 0x0F => 0x263C
    case 0x10 => 0x25BA
    case 0x11 => 0x25C4
    case 0x12 => 0x2195
    case 0x13 => 0x203C
    case 0x14 => 0x00B6
    case 0x15 => 0x00A7
    case 0x16 => 0x25AC
    case 0x17 => 0x21A8
    case 0x18 => 0x2191
    case 0x19 => 0x2193
    case 0x1A => 0x2192
    case 0x1B => 0x2190
    case 0x1C => 0x221F
    case 0x1D => 0x2194
    case 0x1E => 0x25B2
    case _    => 0x25BC
  }

  /** The glyphs of bytes 0x7F to 0xFF. */
  function HighGlyph(b: byte): Char16
    requires 0x7F <= b
  {
    match b
    case 0x7F => 0x2302
    case 0x80 => 0x00C7
    case 0x81 => 0x00FC
    case 0x82 => 0x00E9
    case 0x83 => 0x00E2
    case 0x84 => 0x00E4
    case 0x85 => 0x00E0
    case 0x86 => 0x00E5
    case 0x87 => 0x00E7
    case 0x88 => 0x00EA
    case 0x89 => 0x00EB
    case 0x8A => 0x00E8
    case 0x8B => 0x00EF
    case 0x8C => 0x00EE
    case 0x8D => 0x00EC
    case 0x8E => 0x00C4
    case 0x8F => 0x00C5
    case 0x90 => 0x00C9
    case 0x91 => 0x00E6
    case 0x92 => 0x00C6
    case 0x93 => 0x00F4
    case 0x94 => 0x00F6
    case 0x95 => 0x00F2
    case 0x96 => 0x00FB
    case 0x97 => 0x00F9
    case 0x98 => 0x00FF
    case 0x99 => 0x00D6
    case 0x9A => 0x00DC
    case 0x9B => 0x00A2
    case 0x9C => 0x00A3
    case 0x9D => 0x00A5
    case 0x9E => 0x20A7
    case 0x9F => 0x0192
    case 0xA0 => 0x00E1
    case 0xA1 => 0x00ED
    case 0xA2 => 0x00F3
    case 0xA3 => 0x00FA
    case 0xA4 => 0x00F1
    case 0xA5 => 0x00D1
    case 0xA6 => 0x00AA
    case 0xA7 => 0x00BA
    case 0xA8 => 0x00BF
    case 0xA9 => 0x2310
    case 0xAA => 0x00AC
    case 0xAB => 0x00BD
    case 0xAC => 0x00BC
    case 0xAD => 0x00A1
    case 0xAE => 0x00AB
    case 0xAF => 0x00BB
    case 0xB0 => 0x2591
    case 0xB1 => 0x2592
    case 0xB2 => 0x2593
    case 0xB3 => 0x2502
    case 0xB4 => 0x2524
    case 0xB5 => 0x2561
    case 0xB6 => 0x2562
    case 0xB7 => 0x2556
    case 0xB8 => 0x2555
    case 0xB9 => 0x2563
    case 0xBA => 0x2551
    case 0xBB => 0x2557
    case 0xBC => 0x255D
    case 0xBD => 0x255C
    case 0xBE => 0x255B
    case 0xBF => 0x2510
    case 0xC0 => 0x2514
    case 0xC1 => 0x2534
    case 0xC2 => 0x252C
    case 0xC3 => 0x251C
    case 0xC4 => 0x2500
    case 0xC5 => 0x253C
    case 0xC6 => 0x255E
    case 0xC7 => 0x255F
    case 0xC8 => 0x255A
    case 0xC9 => 0x2554
    case 0xCA => 0x2569
    case 0xCB => 0x2566
    case 0xCC => 0x2560
    case 0xCD => 0x2550
    case 0xCE => 0x256C
    case 0xCF => 0x2567
    case 0xD0 => 0x2568
    case 0xD1 => 0x2564
    case 0xD2 => 0x2565
    case 0xD3 => 0x2559
    case 0xD4 => 0x2558
    case 0xD5 => 0x2552
    case 0xD6 => 0x2553
    case 0xD7 => 0x256B
    case 0xD8 => 0x256A
    case 0xD9 => 0x2518
    case 0xDA => 0x250C
    case 0xDB => 0x2588
    case 0xDC => 0x2584
    case 0xDD => 0x258C
    case 0xDE => 0x2590
    case 0xDF => 0x2580
    case 0xE0 => 0x03B1
    case 0xE1 => 0x00DF
    case 0xE2 => 0x0393
    case 0xE3 => 0x03C0
    case 0xE4 => 0x03A3
    case 0xE5 => 0x03C3
    case 0xE6 => 0x00B5
    case 0xE7 => 0x03C4
    case 0xE8 => 0x03A6
    case 0xE9 => 0x0398
    case 0xEA => 0x03A9
    case 0xEB => 0x03B4
    case 0xEC => 0x221E
    case 0xED => 0x03C6
    case 0xEE => 0x03B5
    case 0xEF => 0x2229
    case 0xF0 => 0x2261
    case 0xF1 => 0x00B1
    case 0xF2 => 0x2265
    case 0xF3 => 0x2264
    case 0xF4 => 0x2320
    case 0xF5 => 0x2321
    case 0xF6 => 0x00F7
    case 0xF7 => 0x2248
    case 0xF8 => 0x00B0
    case 0xF9 => 0x2219
    case 0xFA => 0x00B7
    case 0xFB => 0x221A
    case 0xFC => 0x207F
    case 0xFD => 0x00B2
    case 0xFE => 0x25A0
    case _    => 0x00A0
  }

  /**
   * The inverse of the table, as a search tree over the 256 sorted entries:
   * the byte whose entry is `c`, or -1. Only used to prove the table injective.
   */
  ghost function Position(c: int): int {
    if c < 0x00E4 then
      if c < 0x005F then
        if c < 0x003F then
          if c < 0x002F then
            if c < 0x0027 then
              if c < 0x0023 then
                if c < 0x0021 then
                  if c == 0x0000 then 0x00 else if c == 0x0020 then 0x20 else -1
                else
                  if c == 0x0021 then 0x21 else if c == 0x0022 then 0x22 else -1
              else
                if c < 0x0025 then
                  if c == 0x0023 then 0x23 else if c == 0x0024 then 0x24 else -1
                else
                  if c == 0x0025 then 0x25 else if c == 0x0026 then 0x26 else -1
            else
              if c < 0x002B then
                if c < 0x0029 then
                  if c == 0x0027 then 0x27 else if c == 0x0028 then 0x28 else -1
                else
                  if c == 0x0029 then 0x29 else if c == 0x002A then 0x2A else -1
              else
                if c < 0x002D then
                  if c == 0x002B then 0x2B else if c == 0x002C then 0x2C else -1
                else
                  if c == 0x002D then 0x2D else if c == 0x002E then 0x2E else -1
          else
            if c < 0x0037 then
              if c < 0x0033 then
                if c < 0x0031 then
                  if c == 0x002F then 0x2F else if c == 0x0030 then 0x30 else -1
                else
                  if c == 0x0031 then 0x31 else if c == 0x0032 then 0x32 else -1
              else
                if c < 0x0035 then
                  if c == 0x0033 then 0x33 else if c == 0x0034 then 0x34 else -1
                else
                  if c == 0x0035 then 0x35 else if c == 0x0036 then 0x36 else -1
            else
              if c < 0x003B then
                if c < 0x0039 then
                  if c == 0x0037 then 0x37 else if c == 0x0038 then 0x38 else -1
                else
                  if c == 0x0039 then 0x39 else if c == 0x003A then 0x3A else -1
              else
                if c < 0x003D then
                  if c == 0x003B then 0x3B else if c == 0x003C then 0x3C else -1
                else
                  if c == 0x003D then 0x3D else if c == 0x003E then 0x3E else -1
        else
          if c < 0x004F then
            if c < 0x0047 then
              if c < 0x0043 then
                if c < 0x0041 then
                  if c == 0x003F then 0x3F else if c == 0x0040 then 0x40 else -1
                else
                  if c == 0x0041 then 0x41 else if c == 0x0042 then 0x42 else -1
              else
                if c < 0x0045 then
                  if c == 0x0043 then 0x43 else if c == 0x0044 then 0x44 else -1
                else
                  if c == 0x0045 then 0x45 else if c == 0x0046 then 0x46 else -1
            else
              if c < 0x004B then
                if c < 0x0049 then
                  if c == 0x0047 then 0x47 else if c == 0x0048 then 0x48 else -1
                else
                  if c == 0x0049 then 0x49 else if c == 0x004A then 0x4A else -1
              else
                if c < 0x004D then
                  if c == 0x004B then 0x4B else if c == 0x004C then 0x4C else -1
                else
                  if c == 0x004D then 0x4D else if c == 0x004E then 0x4E else -1
          else
            if c < 0x0057 then
              if c < 0x0053 then
                if c < 0x0051 then
                  if c == 0x004F then 0x4F else if c == 0x0050 then 0x50 else -1
                else
                  if c == 0x0051 then 0x51 else if c == 0x0052 then 0x52 else -1
              else
                if c < 0x0055 then
                  if c == 0x0053 then 0x53 else if c == 0x0054 then 0x54 else -1
                else
                  if c == 0x0055 then 0x55 else if c == 0x0056 then 0x56 else -1
            else
              if c < 0x005B then
                if c < 0x0059 then
                  if c == 0x0057 then 0x57 else if c == 0x0058 then 0x58 else -1
                else
                  if c == 0x0059 then 0x59 else if c == 0x005A then 0x5A else -1
              else
                if c < 0x005D then
                  if c == 0x005B then 0x5B else if c == 0x005C then 0x5C else -1
                else
                  if c == 0x005D then 0x5D else if c == 0x005E then 0x5E else -1
      else
        if c < 0x00A0 then
          if c < 0x006F then
            if c < 0x0067 then
              if c < 0x0063 then
                if c < 0x0061 then
                  if c == 0x005F then 0x5F else if c == 0x0060 then 0x60 else -1
                else
                  if c == 0x0061 then 0x61 else if c == 0x0062 then 0x62 else -1
              else
                if c < 0x0065 then
                  if c == 0x0063 then 0x63 else if c == 0x0064 then 0x64 else -1
                else
                  if c == 0x0065 then 0x65 else if c == 0x0066 then 0x66 else -1
            else
              if c < 0x006B then
                if c < 0x0069 then
                  if c == 0x0067 then 0x67 else if c == 0x0068 then 0x68 else -1
                else
                  if c == 0x0069 then 0x69 else if c == 0x006A then 0x6A else -1
              else
                if c < 0x006D then
                  if c == 0x006B then 0x6B else if c == 0x006C then 0x6C else -1
                else
                  if c == 0x006D then 0x6D else if c == 0x006E then 0x6E else -1
          else
            if c < 0x0077 then
              if c < 0x0073 then
                if c < 0x0071 then
                  if c == 0x006F then 0x6F else if c == 0x0070 then 0x70 else -1
                else
                  if c == 0x0071 then 0x71 else if c == 0x0072 then 0x72 else -1
              else
                if c < 0x0075 then
                  if c == 0x0073 then 0x73 else if c == 0x0074 then 0x74 else -1
                else
                  if c == 0x0075 then 0x75 else if c == 0x0076 then 0x76 else -1
            else
              if c < 0x007B then
                if c < 0x0079 then
                  if c == 0x0077 then 0x77 else if c == 0x0078 then 0x78 else -1
                else
                  if c == 0x0079 then 0x79 else if c == 0x007A then 0x7A else -1
              else
                if c < 0x007D then
                  if c == 0x007B then 0x7B else if c == 0x007C then 0x7C else -1
                else
                  if c == 0x007D then 0x7D else if c == 0x007E then 0x7E else -1
        else
          if c < 0x00BB then
            if c < 0x00AC then
              if c < 0x00A5 then
                if c < 0x00A2 then
                  if c == 0x00A0 then 0xFF else if c == 0x00A1 then 0xAD else -1
                else
                  if c == 0x00A2 then 0x9B else if c == 0x00A3 then 0x9C else -1
              else
                if c < 0x00AA then
                  if c == 0x00A5 then 0x9D else if c == 0x00A7 then 0x15 else -1
                else
                  if c == 0x00AA then 0xA6 else if c == 0x00AB then 0xAE else -1
            else
              if c < 0x00B5 then
                if c < 0x00B1 then
                  if c == 0x00AC then 0xAA else if c == 0x00B0 then 0xF8 else -1
                else
                  if c == 0x00B1 then 0xF1 else if c == 0x00B2 then 0xFD else -1
              else
                if c < 0x00B7 then
                  if c == 0x00B5 then 0xE6 else if c == 0x00B6 then 0x14 else -1
                else
                  if c == 0x00B7 then 0xFA else if c == 0x00BA then 0xA7 else -1
          else
            if c < 0x00C9 then
              if c < 0x00C4 then
                if c < 0x00BD then
                  if c == 0x00BB then 0xAF else if c == 0x00BC then 0xAC else -1
                else
                  if c == 0x00BD then 0xAB else if c == 0x00BF then 0xA8 else -1
              else
                if c < 0x00C6 then
                  if c == 0x00C4 then 0x8E else if c == 0x00C5 then 0x8F else -1
                else
                  if c == 0x00C6 then 0x92 else if c == 0x00C7 then 0x80 else -1
            else
              if c < 0x00DF then
                if c < 0x00D6 then
                  if c == 0x00C9 then 0x90 else if c == 0x00D1 then 0xA5 else -1
                else
                  if c == 0x00D6 then 0x99 else if c == 0x00DC then 0x9A else -1
              else
                if c < 0x00E1 then
                  if c == 0x00DF then 0xE1 else if c == 0x00E0 then 0x85 else -1
                else
                  if c == 0x00E1 then 0xA0 else if c == 0x00E2 then 0x83 else -1
    else
      if c < 0x2514 then
        if c < 0x03C0 then
          if c < 0x00F6 then
            if c < 0x00EC then
              if c < 0x00E8 then
                if c < 0x00E6 then
                  if c == 0x00E4 then 0x84 else if c == 0x00E5 then 0x86 else -1
                else
                  if c == 0x00E6 then 0x91 else if c == 0x00E7 then 0x87 else -1
              else
                if c < 0x00EA then
                  if c == 0x00E8 then 0x8A else if c == 0x00E9 then 0x82 else -1
                else
                  if c == 0x00EA then 0x88 else if c == 0x00EB then 0x89 else -1
            else
              if c < 0x00F1 then
                if c < 0x00EE then
                  if c == 0x00EC then 0x8D else if c == 0x00ED then 0xA1 else -1
                else
                  if c == 0x00EE then 0x8C else if c == 0x00EF then 0x8B else -1
              else
                if c < 0x00F3 then
                  if c == 0x00F1 then 0xA4 else if c == 0x00F2 then 0x95 else -1
                else
                  if c == 0x00F3 then 0xA2 else if c == 0x00F4 then 0x93 else -1
          else
            if c < 0x0393 then
              if c < 0x00FB then
                if c < 0x00F9 then
                  if c == 0x00F6 then 0x94 else if c == 0x00F7 then 0xF6 else -1
                else
                  if c == 0x00F9 then 0x97 else if c == 0x00FA then 0xA3 else -1
              else
                if c < 0x00FF then
                  if c == 0x00FB then 0x96 else if c == 0x00FC then 0x81 else -1
                else
                  if c == 0x00FF then 0x98 else if c == 0x0192 then 0x9F else -1
            else
              if c < 0x03A9 then
                if c < 0x03A3 then
                  if c == 0x0393 then 0xE2 else if c == 0x0398 then 0xE9 else -1
                else
                  if c == 0x03A3 then 0xE4 else if c == 0x03A6 then 0xE8 else -1
              else
                if c < 0x03B4 then
                  if c == 0x03A9 then 0xEA else if c == 0x03B1 then 0xE0 else -1
                else
                  if c == 0x03B4 then 0xEB else if c == 0x03B5 then 0xEE else -1
        else
          if c < 0x221A then
            if c < 0x2190 then
              if c < 0x2022 then
                if c < 0x03C4 then
                  if c == 0x03C0 then 0xE3 else if c == 0x03C3 then 0xE5 else -1
                else
                  if c == 0x03C4 then 0xE7 else if c == 0x03C6 then 0xED else -1
              else
                if c < 0x207F then
                  if c == 0x2022 then 0x07 else if c == 0x203C then 0x13 else -1
                else
                  if c == 0x207F then 0xFC else if c == 0x20A7 then 0x9E else -1
            else
              if c < 0x2194 then
                if c < 0x2192 then
                  if c == 0x2190 then 0x1B else if c == 0x2191 then 0x18 else -1
                else
                  if c == 0x2192 then 0x1A else if c == 0x2193 then 0x19 else -1
              else
                if c < 0x21A8 then
                  if c == 0x2194 then 0x1D else if c == 0x2195 then 0x12 else -1
                else
                  if c == 0x21A8 then 0x17 else if c == 0x2219 then 0xF9 else -1
          else
            if c < 0x2302 then
              if c < 0x2248 then
                if c < 0x221F then
                  if c == 0x221A then 0xFB else if c == 0x221E then 0xEC else -1
                else
                  if c == 0x221F then 0x1C else if c == 0x2229 then 0xEF else -1
              else
                if c < 0x2264 then
                  if c == 0x2248 then 0xF7 else if c == 0x2261 then 0xF0 else -1
                else
                  if c == 0x2264 then 0xF3 else if c == 0x2265 then 0xF2 else -1
            else
              if c < 0x2500 then
                if c < 0x2320 then
                  if c == 0x2302 then 0x7F else if c == 0x2310 then 0xA9 else -1
                else
                  if c == 0x2320 then 0xF4 else if c == 0x2321 then 0xF5 else -1
              else
                if c < 0x250C then
                  if c == 0x2500 then 0xC4 else if c == 0x2502 then 0xB3 else -1
                else
                  if c == 0x250C then 0xDA else if c == 0x2510 then 0xBF else -1
      else
        if c < 0x2569 then
          if c < 0x2559 then
            if c < 0x2551 then
              if c < 0x252C then
                if c < 0x251C then
                  if c == 0x2514 then 0xC0 else if c == 0x2518 then 0xD9 else -1
                else
                  if c == 0x251C then 0xC3 else if c == 0x2524 then 0xB4 else -1
              else
                if c < 0x253C then
                  if c == 0x252C then 0xC2 else if c == 0x2534 then 0xC1 else -1
                else
                  if c == 0x253C then 0xC5 else if c == 0x2550 then 0xCD else -1
            else
              if c < 0x2555 then
                if c < 0x2553 then
                  if c == 0x2551 then 0xBA else if c == 0x2552 then 0xD5 else -1
                else
                  if c == 0x2553 then 0xD6 else if c == 0x2554 then 0xC9 else -1
              else
                if c < 0x2557 then
                  if c == 0x2555 then 0xB8 else if c == 0x2556 then 0xB7 else -1
                else
                  if c == 0x2557 then 0xBB else if c == 0x2558 then 0xD4 else -1
          else
            if c < 0x2561 then
              if c < 0x255D then
                if c < 0x255B then
                  if c == 0x2559 then 0xD3 else if c == 0x255A then 0xC8 else -1
                else
                  if c == 0x255B then 0xBE else if c == 0x255C then 0xBD else -1
              else
                if c < 0x255F then
                  if c == 0x255D then 0xBC else if c == 0x255E then 0xC6 else -1
                else
                  if c == 0x255F then 0xC7 else if c == 0x2560 then 0xCC else -1
            else
              if c < 0x2565 then
                if c < 0x2563 then
                  if c == 0x2561 then 0xB5 else if c == 0x2562 then 0xB6 else -1
                else
                  if c == 0x2563 then 0xB9 else if c == 0x2564 then 0xD1 else -1
              else
                if c < 0x2567 then
                  if c == 0x2565 then 0xD2 else if c == 0x2566 then 0xCB else -1
                else
                  if c == 0x2567 then 0xCF else if c == 0x2568 then 0xD0 else -1
        else
          if c < 0x25BC then
            if c < 0x2590 then
              if c < 0x2580 then
                if c < 0x256B then
                  if c == 0x2569 then 0xCA else if c == 0x256A then 0xD8 else -1
                else
                  if c == 0x256B then 0xD7 else if c == 0x256C then 0xCE else -1
              else
                if c < 0x2588 then
                  if c == 0x2580 then 0xDF else if c == 0x2584 then 0xDC else -1
                else
                  if c == 0x2588 then 0xDB else if c == 0x258C then 0xDD else -1
            else
              if c < 0x25A0 then
                if c < 0x2592 then
                  if c == 0x2590 then 0xDE else if c == 0x2591 then 0xB0 else -1
                else
                  if c == 0x2592 then 0xB1 else if c == 0x2593 then 0xB2 else -1
              else
                if c < 0x25B2 then
                  if c == 0x25A0 then 0xFE else if c == 0x25AC then 0x16 else -1
                else
                  if c == 0x25B2 then 0x1E else if c == 0x25BA then 0x10 else -1
          else
            if c < 0x2640 then
              if c < 0x25D9 then
                if c < 0x25CB then
                  if c == 0x25BC then 0x1F else if c == 0x25C4 then 0x11 else -1
                else
                  if c == 0x25CB then 0x09 else if c == 0x25D8 then 0x08 else -1
              else
                if c < 0x263B then
                  if c == 0x25D9 then 0x0A else if c == 0x263A then 0x01 else -1
                else
                  if c == 0x263B then 0x02 else if c == 0x263C then 0x0F else -1
            else
              if c < 0x2665 then
                if c < 0x2660 then
                  if c == 0x2640 then 0x0C else if c == 0x2642 then 0x0B else -1
                else
                  if c == 0x2660 then 0x06 else if c == 0x2663 then 0x05 else -1
              else
                if c < 0x266A then
                  if c == 0x2665 then 0x03 else if c == 0x2666 then 0x04 else -1
                else
                  if c == 0x266A then 0x0D else if c == 0x266B then 0x0E else -1
  }

  lemma PositionInvertsRow0()
    ensures forall b: byte | 0x00 <= b < 0x10 :: Position(Cp437(b)) == b
  {
  }

  lemma PositionInvertsRow1()
    ensures forall b: byte | 0x10 <= b < 0x20 :: Position(Cp437(b)) == b
  {
  }

  lemma PositionInvertsRow2()
    ensures forall b: byte | 0x20 <= b < 0x30 :: Position(Cp437(b)) == b
  {
  }

  lemma PositionInvertsRow3()
    ensures forall b: byte | 0x30 <= b < 0x40 :: Position(Cp437(b)) == b
  {
  }

  lemma PositionInvertsRow4()
    ensures forall b: byte | 0x40 <= b < 0x50 :: Position(Cp437(b)) == b
  {
  }

  lemma PositionInvertsRow5()
    ensures forall b: byte | 0x50 <= b < 0x60 :: Position(Cp437(b)) == b
  {
  }

  lemma PositionInvertsRow6()
    ensures forall b: byte | 0x60 <= b < 0x70 :: Position(Cp437(b)) == b
  {
  }

  lemma PositionInvertsRow7()
    ensures forall b: byte | 0x70 <= b < 0x80 :: Position(Cp437(b)) == b
  {
  }

  lemma PositionInvertsRow8()
    ensures forall b: byte | 0x80 <= b < 0x90 :: Position(Cp437(b)) == b
  {
  }

  lemma PositionInvertsRow9()
    ensures forall b: byte | 0x90 <= b < 0xA0 :: Position(Cp437(b)) == b
  {
  }

  lemma PositionInvertsRowA()
    ensures forall b: byte | 0xA0 <= b < 0xB0 :: Position(Cp437(b)) == b
  {
  }

  lemma PositionInvertsRowB()
    ensures forall b: byte | 0xB0 <= b < 0xC0 :: Position(Cp437(b)) == b
  {
  }

  lemma PositionInvertsRowC()
    ensures forall b: byte | 0xC0 <= b < 0xD0 :: Position(Cp437(b)) == b
  {
  }

  lemma PositionInvertsRowD()
    ensures forall b: byte | 0xD0 <= b < 0xE0 :: Position(Cp437(b)) == b
  {
  }

  lemma PositionInvertsRowE()
    ensures forall b: byte | 0xE0 <= b < 0xF0 :: Position(Cp437(b)) == b
  {
  }

  lemma PositionInvertsRowF()
    ensures forall b: byte | 0xF0 <= b < 0x100 :: Position(Cp437(b)) == b
  {
  }

  lemma PositionInverts(b: byte)
    ensures Position(Cp437(b)) == b
  {
    if b < 0x10 { PositionInvertsRow0(); }
    else if b < 0x20 { PositionInvertsRow1(); }
    else if b < 0x30 { PositionInvertsRow2(); }
    else if b < 0x40 { PositionInvertsRow3(); }
    else if b < 0x50 { PositionInvertsRow4(); }
    else if b < 0x60 { PositionInvertsRow5(); }
    else if b < 0x70 { PositionInvertsRow6(); }
    else if b < 0x80 { PositionInvertsRow7(); }
    else if b < 0x90 { PositionInvertsRow8(); }
    else if b < 0xA0 { PositionInvertsRow9(); }
    else if b < 0xB0 { PositionInvertsRowA(); }
    else if b < 0xC0 { PositionInvertsRowB(); }
    else if b < 0xD0 { PositionInvertsRowC(); }
    else if b < 0xE0 { PositionInvertsRowD(); }
    else if b < 0xF0 { PositionInvertsRowE(); }
    else { PositionInvertsRowF(); }
  }

  /** The 256 entries of the table are pairwise distinct. */
  lemma TableInjective(b1: byte, b2: byte)
    ensures Cp437(b1) == Cp437(b2) <==> b1 == b2
  {
    PositionInverts(b1);
    PositionInverts(b2);
  }

  /** Byte 0x00 is the only byte that decodes to U+0000. */
  lemma OnlyZeroIsNull()
    ensures forall b: byte :: Cp437(b) == 0 <==> b == 0
  {
    forall b: byte
      ensures Cp437(b) == 0 <==> b == 0
    {
      TableInjective(b, 0);
    }
  }

  // ---------------------------------------------------------------------------
  // Looking characters up
  // ---------------------------------------------------------------------------

  /** The table as the array `mapIBM437`: entry `b` is `Cp437(b)`. */
  function Table(): (t: seq<Char16>)
    ensures |t| == 0x100 && forall b: byte :: t[b] == Cp437(b)
  {
    seq(0x100, (b: int) requires 0 <= b < 0x100 => Cp437(b))
  }

  /** `a.indexOf(c)`: the first index of `a` holding `c`, or -1 when none does. */
  function FirstIndex(a: seq<int>, c: int): (r: int)
    ensures -1 <= r < |a|
  {
    if a == [] then -1
    else if a[0] == c then 0
    else if FirstIndex(a[1..], c) == -1 then -1
    else FirstIndex(a[1..], c) + 1
  }

  /** `indexOf` finds the first occurrence of `c`, and yields -1 exactly when `c` does not occur. */
  lemma {:induction false} FirstIndexFinds(a: seq<int>, c: int)
    ensures FirstIndex(a, c) >= 0 ==> a[FirstIndex(a, c)] == c
    ensures forall i :: 0 <= i < |a| && i < FirstIndex(a, c) ==> a[i] != c
    ensures FirstIndex(a, c) == -1 <==> forall i :: 0 <= i < |a| ==> a[i] != c
  {
    if a != [] && a[0] != c {
      FirstIndexFinds(a[1..], c);
      assert forall i :: 1 <= i < |a| ==> a[i] == a[1..][i - 1];
    }
  }

  /** `mapIBM437.indexOf(c)`: the first byte whose entry is `c`, or -1 when no entry is `c`. */
  function IndexOf(c: int): (r: int)
    ensures -1 <= r < 0x100
  {
    FirstIndex(Table(), c)
  }

  /** `indexOf(c)` is a byte whose entry is `c`, or -1 exactly when no entry is `c`. */
  lemma IndexOfFinds(c: int)
    ensures IndexOf(c) >= 0 ==> Cp437(IndexOf(c)) == c
    ensures IndexOf(c) == -1 <==> forall b: byte :: Cp437(b) != c
  {
    FirstIndexFinds(Table(), c);
    if IndexOf(c) == -1 {
      forall b: byte
        ensures Cp437(b) != c
      {
        
      }
    } else {
      assert Table()[IndexOf(c)] == c;
    }
  }

  /** A character the table holds. */
  predicate Mappable(c: int) {
    IndexOf(c) >= 0
  }

  /** Looking up the entry of byte `b` finds `b` itself. */
  lemma IndexOfEntry(b: byte)
    ensures IndexOf(Cp437(b)) == b
  {
    IndexOfFinds(Cp437(b));
    TableInjective(IndexOf(Cp437(b)), b);
  }

  /** `indexOf` yields 0 exactly for U+0000: the test `writeString` uses to spot a NUL in its input. */
  lemma IndexOfZero(c: int)
    ensures IndexOf(c) == 0 <==> c == 0
  {
    IndexOfFinds(c);
    IndexOfEntry(0);
  }

  /** The byte a Uint8Array or DataView stores for `indexOf(c)`; an unmappable character (-1) becomes 0xFF. */
  function EncodeChar(c: Char16): byte {
    ToUint8(IndexOf(c))
  }

  /** Each byte of `a` through the table. */
  function Decoded(a: seq<byte>): (s: JsString)
    ensures |s| == |a|
  {
    seq(|a|, i requires 0 <= i < |a| => Cp437(a[i]))
  }

  /** Each character of `s` through `EncodeChar`. */
  function Encoded(s: JsString): (a: seq<byte>)
    ensures |a| == |s|
  {
    seq(|s|, i requires 0 <= i < |s| => EncodeChar(s[i]))
  }

  /** `string.fromArray(a)`: builds the string one table entry per byte. */
  method FromArray(a: seq<byte>) returns (s: JsString)
    ensures |s| == |a|
    ensures forall i :: 0 <= i < |a| ==> s[i] == Cp437(a[i])
  {
    s := [];
    var i := 0;
    while i < |a|
      invariant 0 <= i <= |a|
      invariant |s| == i
      invariant forall k :: 0 <= k < i ==> s[k] == Cp437(a[k])
    {
      s := s + [Cp437(a[i])];
      i := i + 1;
    }
  }

  /** `string.toU8(s)`: one byte per character, the character's position in the table. */
  method ToU8(s: JsString) returns (u: seq<byte>)
    ensures |u| == |s|
    ensures forall i :: 0 <= i < |s| ==> u[i] == ToUint8(IndexOf(s[i]))
  {
    var u8 := new byte[|s|](_ => 0);
    var i := 0;
    while i < |s|
      invariant 0 <= i <= |s|
      invariant forall k :: 0 <= k < i ==> u8[k] == ToUint8(IndexOf(s[k]))
    {
      u8[i] := ToUint8(IndexOf(s[i]));
      i := i + 1;
    }
    u := u8[..];
  }

  /** Encoding the entry of byte `b` gives back `b`. */
  lemma EncodeDecodeChar(b: byte)
    ensures EncodeChar(Cp437(b)) == b
  {
    IndexOfEntry(b);
  }

  /** A character the table holds survives encoding and decoding. */
  lemma DecodeEncodeChar(c: Char16)
    requires Mappable(c)
    ensures Cp437(EncodeChar(c)) == c
  {
    IndexOfFinds(c);
    var b: byte := IndexOf(c);
    assert EncodeChar(c) == b;
  }

  /** `toU8(fromArray(a)) == a`: every byte sequence survives the trip through a string. */
  lemma ToU8FromArray(a: seq<byte>)
    ensures Encoded(Decoded(a)) == a
  {
    forall i | 0 <= i < |a|
      ensures Encoded(Decoded(a))[i] == a[i]
    {
      EncodeDecodeChar(a[i]);
    }
  }

  /** `fromArray(toU8(s)) == s` for a string whose every character is in the table. */
  lemma FromArrayToU8(s: JsString)
    requires forall i :: 0 <= i < |s| ==> Mappable(s[i])
    ensures Decoded(Encoded(s)) == s
  {
    forall i | 0 <= i < |s|
      ensures Decoded(Encoded(s))[i] == s[i]
    {
      DecodeEncodeChar(s[i]);
    }
  }

  // ---------------------------------------------------------------------------
  // dataViewToString
  // ---------------------------------------------------------------------------

  /** Index of the first zero of `s` (byte 0x00 or U+0000), or `|s|` when there is none. */
  function NullIndex(s: seq<int>): (r: nat)
    ensures r <= |s|
    ensures r < |s| ==> s[r] == 0
    ensures forall i :: 0 <= i < r ==> s[i] != 0
  {
    if s == [] then 0
    else if s[0] == 0 then 0
    else 1 + NullIndex(s[1..])
  }

  /**
   * The string `dataViewToString` builds from the bytes `bs` it was given: every
   * byte through the table, or with `nullTerm` only the bytes before the first zero.
   */
  function DecodeString(bs: seq<byte>, nullTerm: bool): (r: JsString)
    ensures !nullTerm ==> |r| == |bs| && forall i :: 0 <= i < |bs| ==> r[i] == Cp437(bs[i])
    ensures nullTerm ==> |r| <= |bs| && (|r| < |bs| ==> bs[|r|] == 0)
    ensures nullTerm ==> forall i :: 0 <= i < |r| ==> bs[i] != 0 && r[i] == Cp437(bs[i]) && r[i] != 0
  {
    OnlyZeroIsNull();
    Decoded(if nullTerm then bs[..NullIndex(bs)] else bs)
  }

  /**
   * Every byte `dataViewToString(dv, off, len, nullTerm)` reads lies inside
   * `st`: all `len` bytes, or with `nullTerm` those up to the first zero.
   * Reading outside the view is a RangeError.
   */
  predicate ScanInBounds(st: seq<byte>, off: int, len: nat, nullTerm: bool) {
    len == 0 ||
    (0 <= off && (off + len <= |st| ||
                  (nullTerm && exists j :: off <= j < off + len && j < |st| && st[j] == 0)))
  }

  /** `dataViewToString(dv, offset, len, nullTerm)`: decodes up to `len` bytes from `offset`. */
  method DataViewToString(dv: array<byte>, offset: int, len: nat, nullTerm: bool) returns (s: JsString)
    requires ScanInBounds(dv[..], offset, len, nullTerm)
    ensures s == DecodeString(Window(dv[..], offset, len), nullTerm)
  {
    s := [];
    var i := 0;
    while i < len
      invariant 0 <= i <= len
      invariant i > 0 ==> 0 <= offset && offset + i <= dv.Length
      invariant nullTerm ==> forall k :: offset <= k < offset + i ==> dv[k] != 0
      invariant s == Decoded(Window(dv[..], offset, i))
    {
      var c := dv[offset + i];
      if c == 0 && nullTerm {
        break;
      }
      s := s + [Cp437(c)];
      i := i + 1;
    }
  }

  // ---------------------------------------------------------------------------
  // writeString
  // ---------------------------------------------------------------------------

  /** The three values `writeString` gives its `nullTerm` argument. */
  datatype NullTerm =
    | Embed     // `false`: a U+0000 in the input is copied as byte 0x00 like any other character
    | Reserve   // `true`: stops at a U+0000, and keeps the last of the `len` bytes for a terminator
    | Stop      // `undefined`: stops at a U+0000, keeps no byte back

  /** How many characters `writeString(s, dv, offset, len, nullTerm, pad)` copies before it stops. */
  function CopiedChars(s: JsString, len: nat, nullTerm: NullTerm): (k: nat)
    ensures k <= len && k <= |s|
    ensures nullTerm == Embed ==> k == Min(|s|, len)
    ensures nullTerm == Reserve && len > 0 ==> k == Min(NullIndex(s), len - 1)
    ensures nullTerm == Stop ==> k == Min(NullIndex(s), len)
  {
    match nullTerm
    case Embed => Min(|s|, len)
    case Reserve => Min(NullIndex(s), if len == 0 then 0 else len - 1)
    case Stop => Min(NullIndex(s), len)
  }

  /** The zero bytes `writeString` adds after `k` copied characters: up to `len` when padding, else one if it fits. */
  function PadCount(k: nat, len: nat, pad: bool): (n: nat)
    requires k <= len
    ensures k + n <= len
    ensures pad ==> k + n == len
    ensures !pad ==> n == if k < len then 1 else 0
  {
    var lenPad := if pad then len - k else 1;
    if lenPad == 0 || k + lenPad > len then 0 else lenPad
  }

  /**
   * The bytes `writeString(s, dv, offset, len, nullTerm, pad)` stores from
   * `offset`: the copied characters, then the zero padding. Its return value
   * is their count.
   */
  function StringBytes(s: JsString, len: nat, nullTerm: NullTerm, pad: bool): (r: seq<byte>)
    ensures |r| <= len
  {
    var k := CopiedChars(s, len, nullTerm);
    Encoded(s[..k]) + Zeros(PadCount(k, len, pad))
  }

  /**
   * `writeString(s, dv, offset, len, nullTerm, pad)`: copies characters into
   * `dv` from `offset`, then pads with zeros; returns the number of bytes stored.
   */
  method WriteString(s: JsString, dv: array<byte>, offset: nat, len: nat, nullTerm: NullTerm, pad: bool)
    returns (n: nat)
    requires offset + |StringBytes(s, len, nullTerm, pad)| <= dv.Length
    modifies dv
    ensures n == |StringBytes(s, len, nullTerm, pad)|
    ensures dv[..] == Overwrite(old(dv[..]), offset, StringBytes(s, len, nullTerm, pad))
  {
    ghost var k := CopiedChars(s, len, nullTerm);
    var i := 0;
    while i < |s| && i < len
      invariant 0 <= i <= k
      invariant forall j :: offset <= j < offset + i ==> dv[j] == EncodeChar(s[j - offset])
      invariant forall j :: 0 <= j < dv.Length && !(offset <= j < offset + i) ==> dv[j] == old(dv[j])
    {
      if nullTerm == Reserve && i == len - 1 {
        // Only one byte left, and it must hold the terminator.
        break;
      }
      var code := IndexOf(s[i]);
      IndexOfZero(s[i]);
      if code == 0 && nullTerm != Embed {
        // A U+0000 in the input also ends the string.
        break;
      }
      dv[offset + i] := ToUint8(code);
      i := i + 1;
    }
    assert i == k;
    var lenPad := if pad then len - i else 1;
    if lenPad == 0 || i + lenPad > len {
      n := i;
    } else {
      var p := 0;
      while p < lenPad
        invariant 0 <= p <= lenPad
        invariant forall j :: offset <= j < offset + i ==> dv[j] == EncodeChar(s[j - offset])
        invariant forall j :: offset + i <= j < offset + i + p ==> dv[j] == 0
        invariant forall j :: 0 <= j < dv.Length && !(offset <= j < offset + i + p) ==> dv[j] == old(dv[j])
      {
        dv[offset + i + p] := 0;
        p := p + 1;
      }
      n := i + lenPad;
    }
    ghost var bytes := StringBytes(s, len, nullTerm, pad);
    assert |bytes| == n;
    ghost var want := Overwrite(old(dv[..]), offset, bytes);
    forall j | 0 <= j < dv.Length
      ensures dv[j] == want[j]
    {
      if offset <= j < offset + i {
        assert bytes[j - offset] == Encoded(s[..k])[j - offset];
      }
    }
    assert dv[..] == want;
  }
}
