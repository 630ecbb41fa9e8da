/** The Spur object decoders: how a selector or a class name is read out of an
    arbitrary, possibly cyclic or corrupt, heap.  Every decoder is a function of
    one memory.  The name decoders also return how many objects they visited,
    so that the bound on their work is part of their contract. */
module SpurObjects {
  import opened Wrappers
  import opened TargetMemory

  const WORD_SIZE: nat := 8
  const BASE_HEADER_SIZE: nat := 8
  const NIL_OBJECT: nat := 0x19
  const FORMAT_BYTE: nat := 3
  const NUM_SLOTS_BYTE: nat := 7
  const FIRST_WORD_OR_BYTE_FORMAT: nat := 9
  const FIRST_BYTE_FORMAT: nat := 16
  const FIRST_COMPILED_METHOD_FORMAT: nat := 24
  const LAST_POINTER_FORMAT: nat := 5
  const MAX_BYTE_OBJECT: nat := 512
  const METHOD_HEADER_OFFSET: nat := 0x18
  const MAX_SELECTOR_DEPTH: nat := 4
  const MAX_CLASS_NAME_DEPTH: nat := 4
  const MAX_CLASS_LITERAL_SCAN: nat := 4
  const MAX_CLASS_OBJECT_SCAN: nat := 8

  // ----- words and headers -----

  predicate IsHeapObject(oop: nat) {
    oop != 0 && oop % 8 == 0
  }

  predicate IsSmallInteger(oop: nat) {
    oop % 8 == 1
  }

  function FormatOf(m: Memory, oop: nat): Option<nat> {
    if !IsHeapObject(oop) then None
    else
      var b :- CopyUint(m, oop + FORMAT_BYTE, 1);
      Some(b % 32)
  }

  predicate IsCompiledMethod(m: Memory, oop: nat) {
    var format := FormatOf(m, oop);
    format.Some? && FIRST_COMPILED_METHOD_FORMAT <= format.value
  }

  predicate IsWordsOrBytes(m: Memory, oop: nat) {
    var format := FormatOf(m, oop);
    format.Some? && FIRST_WORD_OR_BYTE_FORMAT <= format.value < FIRST_COMPILED_METHOD_FORMAT
  }

  predicate IsPointerObject(m: Memory, oop: nat) {
    var format := FormatOf(m, oop);
    format.Some? && format.value <= LAST_POINTER_FORMAT
  }

  /** The slot count byte, or the overflow word before the header when it is 255. */
  function NumSlots(m: Memory, oop: nat): Option<nat> {
    if !IsHeapObject(oop) then None
    else
      var slots :- CopyUint(m, oop + NUM_SLOTS_BYTE, 1);
      if slots == 255 then
        var longHeader :- CopyUint(m, oop - BASE_HEADER_SIZE, 8);
        Some(longHeader / 256)
      else Some(slots)
  }

  function LiteralField(m: Memory, oop: nat, offset: nat): Option<nat> {
    CopyUint(m, oop + BASE_HEADER_SIZE + offset * WORD_SIZE, 8)
  }

  function LiteralOfMethod(m: Memory, methodObj: nat, offset: nat): Option<nat> {
    LiteralField(m, methodObj, offset + 1)
  }

  /** The header word of a compiled method; a jitted method keeps it in its CogMethod. */
  function MethodHeaderOf(m: Memory, methodObj: nat): Option<nat> {
    var header :- LiteralField(m, methodObj, 0);
    if IsSmallInteger(header) then Some(header)
    else CopyUint(m, header + METHOD_HEADER_OFFSET, 8)
  }

  function LiteralCountOfMethod(m: Memory, methodObj: nat, methodHeader: nat): Option<nat> {
    var header :- if IsSmallInteger(methodHeader) then Some(methodHeader) else MethodHeaderOf(m, methodObj);
    Some((header / 8) % 0x8000)
  }

  // ----- strings -----

  predicate IsPrintable(s: string) {
    forall i | 0 <= i < |s| :: ' ' <= s[i] <= '~'
  }

  predicate IsAlphanumeric(c: char) {
    'a' <= c <= 'z' || 'A' <= c <= 'Z' || '0' <= c <= '9'
  }

  predicate LooksLikeSelector(s: string) {
    0 < |s| <= 256 && forall i | 0 <= i < |s| :: IsAlphanumeric(s[i]) || s[i] in "+-*/\\~<>=@,%|&?!_:"
  }

  predicate LooksLikeClassName(s: string) {
    0 < |s| <= 160 && 'A' <= s[0] <= 'Z' && forall i | 0 <= i < |s| :: IsAlphanumeric(s[i]) || s[i] == '_'
  }

  function ToText(bytes: seq<Byte>): string {
    seq(|bytes|, i requires 0 <= i < |bytes| => bytes[i] as char)
  }

  /** The contents of a byte object of 1 to 512 printable ASCII characters. */
  function ReadByteObject(m: Memory, oop: nat): Option<string> {
    if !IsHeapObject(oop) then None
    else
      var header :- CopyBytes(m, oop, BASE_HEADER_SIZE);
      var format := header[FORMAT_BYTE] % 32;
      if !(FIRST_BYTE_FORMAT <= format < FIRST_COMPILED_METHOD_FORMAT) then None
      else
        var slots :- NumSlots(m, oop);
        if slots * WORD_SIZE > U64_MAX || slots * WORD_SIZE < format % 8 then None
        else
          var byteSize := slots * WORD_SIZE - format % 8;
          if byteSize == 0 || byteSize > MAX_BYTE_OBJECT then None
          else
            var bytes :- CopyBytes(m, oop + BASE_HEADER_SIZE, byteSize);
            if IsPrintable(ToText(bytes)) then Some(ToText(bytes)) else None
  }

  function ReadSelector(m: Memory, oop: nat): Option<string> {
    if oop == NIL_OBJECT then None else ReadByteObject(m, oop)
  }

  // ----- the byte-object format, written -----

  function SlotsFor(s: string): nat {
    (|s| + 7) / 8
  }

  function PaddingFor(s: string): nat {
    SlotsFor(s) * 8 - |s|
  }

  function FromText(s: string): (bytes: seq<Byte>)
    requires IsPrintable(s)
    ensures |bytes| == |s|
  {
    seq(|s|, i requires 0 <= i < |s| && IsPrintable(s) => s[i] as int)
  }

  /** The header and text of a byte object holding `s`.  `other` gives the six
      header bytes that carry no size, `flags` the high bits of the format byte;
      the bytes after the text, up to the slot boundary, are free. */
  function EncodeByteObject(s: string, other: seq<Byte>, flags: nat): (bytes: seq<Byte>)
    requires IsPrintable(s) && 1 <= |s| <= 512
    requires |other| == 6 && flags < 8
    ensures |bytes| == 8 + |s|
  {
    other[..3] + [flags * 32 + 16 + PaddingFor(s)] + other[3..] + [SlotsFor(s)] + FromText(s)
  }

  ghost predicate EncodesText(m: Memory, oop: nat, s: string, other: seq<Byte>, flags: nat) {
    && IsPrintable(s) && 1 <= |s| <= 512 && |other| == 6 && flags < 8
    && PlacedAt(m, oop, EncodeByteObject(s, other, flags))
  }

  lemma SlotByte(m: Memory, oop: nat)
    requires IsHeapObject(oop) && oop + NUM_SLOTS_BYTE in m && m[oop + NUM_SLOTS_BYTE] != 255
    ensures NumSlots(m, oop) == Some(m[oop + NUM_SLOTS_BYTE])
  {
    assert Readable(m, oop + NUM_SLOTS_BYTE, 1);
    var b := CopyBytes(m, oop + NUM_SLOTS_BYTE, 1).value;
    assert b[0] == m[oop + NUM_SLOTS_BYTE + 0];
    assert FromLittleEndian(b) == b[0];
  }

  lemma FormatByte(m: Memory, oop: nat)
    requires IsHeapObject(oop) && CopyBytes(m, oop, 8).Some?
    ensures FormatOf(m, oop) == Some(CopyBytes(m, oop, 8).value[3] % 32)
  {
    var header := CopyBytes(m, oop, 8).value;
    assert Readable(m, oop + FORMAT_BYTE, 1);
    var b := CopyBytes(m, oop + FORMAT_BYTE, 1).value;
    assert b[0] == m[oop + 3 + 0] == header[3];
    assert FromLittleEndian(b) == b[0];
  }

  lemma SizeFields(s: string, flags: nat)
    requires 1 <= |s| <= 512
    ensures 0 <= PaddingFor(s) < 8 && SlotsFor(s) <= 64
    ensures (flags * 32 + FIRST_BYTE_FORMAT + PaddingFor(s)) % 32 == FIRST_BYTE_FORMAT + PaddingFor(s)
    ensures SlotsFor(s) * WORD_SIZE - (FIRST_BYTE_FORMAT + PaddingFor(s)) % 8 == |s|
  {
  }

  /** Encoding a printable string of 1 to 512 characters and reading it back. */
  lemma ByteObjectRoundTrip(m: Memory, oop: nat, s: string, other: seq<Byte>, flags: nat)
    requires IsHeapObject(oop)
    requires EncodesText(m, oop, s, other, flags)
    ensures ReadByteObject(m, oop) == Some(s)
  {
    var bytes := EncodeByteObject(s, other, flags);
    var format := FIRST_BYTE_FORMAT + PaddingFor(s);
    CopyPlaced(m, oop, bytes, 0, 8);
    assert CopyBytes(m, oop, 8).value[3] % 32 == format by {
      assert bytes[3] == flags * 32 + format;
      SizeFields(s, flags);
    }
    assert NumSlots(m, oop) == Some(SlotsFor(s)) by {
      assert bytes[7] == SlotsFor(s) && m[oop + 7] == bytes[7];
      SlotByte(m, oop);
    }
    CopyPlaced(m, oop, bytes, 8, |s|);
    assert bytes[8..8 + |s|] == FromText(s);
    assert ToText(FromText(s)) == s;
    SizeFields(s, flags);
  }

  /** Whatever is read is printable, has the length its header states, and is in memory. */
  lemma ByteObjectShape(m: Memory, oop: nat)
    requires ReadByteObject(m, oop).Some?
    ensures var s := ReadByteObject(m, oop).value;
      && IsPrintable(s) && 1 <= |s| <= 512
      && FormatOf(m, oop).Some? && FIRST_BYTE_FORMAT <= FormatOf(m, oop).value < FIRST_COMPILED_METHOD_FORMAT
      && NumSlots(m, oop).Some? && |s| + FormatOf(m, oop).value % 8 == 8 * NumSlots(m, oop).value
      && PlacedAt(m, oop + BASE_HEADER_SIZE, FromText(s))
  {
    FormatByte(m, oop);
    var s := ReadByteObject(m, oop).value;
    assert FromText(s) == CopyBytes(m, oop + BASE_HEADER_SIZE, |s|).value;
  }

  lemma SizeFieldsAreDetermined(s: string, formatByte: Byte, slots: nat)
    requires FIRST_BYTE_FORMAT <= formatByte % 32 < FIRST_COMPILED_METHOD_FORMAT
    requires |s| + (formatByte % 32) % 8 == 8 * slots
    ensures SlotsFor(s) == slots
    ensures formatByte == formatByte / 32 * 32 + FIRST_BYTE_FORMAT + PaddingFor(s)
  {
  }

  lemma HeaderAndText(m: Memory, oop: nat, header: seq<Byte>, s: string)
    requires PlacedAt(m, oop, header) && |header| == 8
    requires IsPrintable(s) && PlacedAt(m, oop + 8, FromText(s))
    ensures PlacedAt(m, oop, header + FromText(s))
  {
    var bytes := header + FromText(s);
    forall i | 0 <= i < |bytes| ensures ByteAt(m, oop + i, bytes[i]) {
      if i < 8 {
        assert ByteAt(m, oop + i, header[i]);
      } else {
        assert ByteAt(m, oop + 8 + (i - 8), FromText(s)[i - 8]);
        assert oop + 8 + (i - 8) == oop + i;
      }
    }
  }

  lemma EncodingExists(m: Memory, oop: nat, s: string, other: seq<Byte>, flags: nat)
    requires EncodesText(m, oop, s, other, flags)
    ensures exists o, f: nat :: EncodesText(m, oop, s, o, f)
  {
  }

  /** The converse of the round trip. */
  lemma ReadTextIsEncoded(m: Memory, oop: nat, s: string)
    requires IsHeapObject(oop) && oop + NUM_SLOTS_BYTE in m && m[oop + NUM_SLOTS_BYTE] != 255
    requires ReadByteObject(m, oop) == Some(s)
    ensures exists other, flags: nat :: EncodesText(m, oop, s, other, flags)
  {
    ByteObjectShape(m, oop);
    FormatByte(m, oop);
    SlotByte(m, oop);
    var header := CopyBytes(m, oop, 8).value;
    var other: seq<Byte> := header[..3] + header[4..7];
    var flags: nat := header[3] / 32;
    assert header[7] == m[oop + 7];
    SizeFieldsAreDetermined(s, header[3], header[7]);
    hide ReadByteObject, PlacedAt, FormatOf, NumSlots;
    assert EncodeByteObject(s, other, flags) == header + FromText(s);
    HeaderAndText(m, oop, header, s);
    EncodingExists(m, oop, s, other, flags);
  }

  /** Both directions: below the overflow mark of the slot count, reading gives
      `s` exactly when an encoding of `s` is in memory. */
  lemma ReadsExactlyEncodings(m: Memory, oop: nat, s: string)
    requires IsHeapObject(oop) && oop + NUM_SLOTS_BYTE in m && m[oop + NUM_SLOTS_BYTE] != 255
    ensures ReadByteObject(m, oop) == Some(s) <==>
            exists other, flags: nat :: EncodesText(m, oop, s, other, flags)
  {
    if ReadByteObject(m, oop) == Some(s) {
      ReadTextIsEncoded(m, oop, s);
    }
    if exists other, flags: nat :: EncodesText(m, oop, s, other, flags) {
      var other, flags: nat :| EncodesText(m, oop, s, other, flags);
      ByteObjectRoundTrip(m, oop, s, other, flags);
    }
  }

  // ----- objects of fields, written -----

  function FieldBytes(fields: seq<nat>): (bytes: seq<Byte>)
    ensures |bytes| == 8 * |fields|
  {
    if fields == [] then [] else FieldBytes(fields[..|fields| - 1]) + ToLittleEndian(fields[|fields| - 1], 8)
  }

  /** An object whose slots are all fields, with a header that says no more than its
      format and size. */
  function ObjectBytes(format: nat, fields: seq<nat>): (bytes: seq<Byte>)
    requires format < 32 && |fields| < 255
    ensures |bytes| == 8 + 8 * |fields|
  {
    [0, 0, 0, format, 0, 0, 0, |fields|] + FieldBytes(fields)
  }

  lemma {:induction false} FieldBytesAt(fields: seq<nat>, i: nat)
    requires i < |fields|
    ensures FieldBytes(fields)[8 * i..8 * i + 8] == ToLittleEndian(fields[i], 8)
  {
    hide ToLittleEndian;
    var front := fields[..|fields| - 1];
    if i < |front| {
      FieldBytesAt(front, i);
      assert FieldBytes(fields)[8 * i..8 * i + 8] == FieldBytes(front)[8 * i..8 * i + 8];
    }
  }

  /** Format, size and every field of a written object are read back. */
  lemma FieldsAreRead(m: Memory, oop: nat, format: nat, fields: seq<nat>)
    requires IsHeapObject(oop) && format < 32 && |fields| < 255
    requires forall i | 0 <= i < |fields| :: fields[i] <= U64_MAX
    requires PlacedAt(m, oop, ObjectBytes(format, fields))
    ensures FormatOf(m, oop) == Some(format) && NumSlots(m, oop) == Some(|fields|)
    ensures forall i | 0 <= i < |fields| :: LiteralField(m, oop, i) == Some(fields[i])
  {
    var bytes := ObjectBytes(format, fields);
    assert bytes[3] == format && bytes[7] == |fields|;
    CopyPlaced(m, oop, bytes, 0, 8);
    FormatByte(m, oop);
    assert ByteAt(m, oop + 7, bytes[7]);
    SlotByte(m, oop);
    hide FormatOf, NumSlots, PlacedAt, ToLittleEndian, CopyUint;
    forall i | 0 <= i < |fields| ensures LiteralField(m, oop, i) == Some(fields[i]) {
      FieldBytesAt(fields, i);
      assert bytes[8 + 8 * i..8 + 8 * i + 8] == FieldBytes(fields)[8 * i..8 * i + 8];
      FieldAt(m, oop, bytes, 8 + 8 * i, fields[i], 8);
    }
  }

  /** The format of a written object tells pointers from words and bytes and from methods. */
  lemma FormatDecides(m: Memory, oop: nat, format: nat, fields: seq<nat>)
    requires IsHeapObject(oop) && format < 32 && |fields| < 255
    requires forall i | 0 <= i < |fields| :: fields[i] <= U64_MAX
    requires PlacedAt(m, oop, ObjectBytes(format, fields))
    ensures IsPointerObject(m, oop) <==> format <= 5
    ensures IsWordsOrBytes(m, oop) <==> 9 <= format < 24
    ensures IsCompiledMethod(m, oop) <==> 24 <= format
  {
    FieldsAreRead(m, oop, format, fields);
    hide FormatOf, PlacedAt, ObjectBytes;
  }

  lemma ByteIsRead(m: Memory, addr: nat, b: Byte)
    requires ByteAt(m, addr, b)
    ensures CopyUint(m, addr, 1) == Some(b)
  {
    assert Readable(m, addr, 1);
    var bytes := CopyBytes(m, addr, 1).value;
    assert bytes[0] == m[addr + 0] && FromLittleEndian(bytes) == bytes[0];
  }

  /** An object of many slots has 255 in the slot count byte, and the true number in a word
      before its header, above its lowest byte. */
  lemma LongObjectSize(m: Memory, oop: nat, low: Byte, slots: nat)
    requires IsHeapObject(oop) && slots < 0x100_0000_0000_0000 && ByteAt(m, oop + 7, 255)
    requires PlacedAt(m, oop - 8, ToLittleEndian(256 * slots + low, 8))
    ensures NumSlots(m, oop) == Some(slots)
  {
    hide ToLittleEndian, PlacedAt, CopyUint, ByteAt;
    ByteIsRead(m, oop + 7, 255);
    FieldAt(m, oop - 8, ToLittleEndian(256 * slots + low, 8), 0, 256 * slots + low, 8);
  }

  /** A method header that is a small integer has its number of literals in the fifteen bits
      above the tag. */
  lemma LiteralCountIsRead(m: Memory, methodObj: nat, count: nat, above: nat)
    requires count < 0x8000
    ensures LiteralCountOfMethod(m, methodObj, above * 0x4_0000 + count * 8 + 1) == Some(count)
  {
    assert (above * 0x4_0000 + count * 8 + 1) / 8 == above * 0x8000 + count;
  }

  lemma SelectorCharacter(c: char)
    ensures IsAlphanumeric(c) || c in "+-*/\\~<>=@,%|&?!_:" <==> '!' <= c <= '~' && c !in "\"#$'().;[]^`{}"
  {
  }

  /** A selector is made of the visible characters but fourteen. */
  lemma SelectorCharacters(s: string)
    ensures LooksLikeSelector(s) <==>
      1 <= |s| <= 256 && forall i | 0 <= i < |s| :: '!' <= s[i] <= '~' && s[i] !in "\"#$'().;[]^`{}"
  {
    forall i | 0 <= i < |s|
      ensures IsAlphanumeric(s[i]) || s[i] in "+-*/\\~<>=@,%|&?!_:"
        <==> '!' <= s[i] <= '~' && s[i] !in "\"#$'().;[]^`{}"
    {
      SelectorCharacter(s[i]);
    }
    hide IsAlphanumeric;
  }

  /** A class name is made of letters, digits and underscores after a capital. */
  lemma ClassNameCharacters(s: string)
    ensures LooksLikeClassName(s) <==>
      1 <= |s| <= 160 && 'A' <= s[0] <= 'Z'
      && forall i | 0 <= i < |s| ::
           'a' <= s[i] <= 'z' || 'A' <= s[i] <= 'Z' || '0' <= s[i] <= '9' || s[i] == '_'
  {
  }
}
