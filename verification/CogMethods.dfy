/** CogMethod headers: how one jitted method is decoded from the method zone, and
    how a header is laid out in memory. */
module CogMethods {
  import opened Wrappers
  import opened TargetMemory
  import opened SpurObjects
  import opened MethodNames
  import opened NamedMethods

  const COG_METHOD_SIZE: nat := 0x28
  const FLAGS_OFFSET: nat := 0x08
  const BLOCK_SIZE_OFFSET: nat := 0x0c
  const METHOD_OBJECT_OFFSET: nat := 0x10
  const COG_METHOD_HEADER_OFFSET: nat := 0x18
  const SELECTOR_OFFSET: nat := 0x20
  const COG_SCAN_LIMIT: nat := 1024 * 1024
  const CM_CLOSED_PIC: nat := 2
  const CM_OPEN_PIC: nat := 3
  const CM_METHOD: nat := 5
  const CM_METHOD_FLAGGED_FOR_BECOME: nat := 6
  const READS_PER_DECODE: nat := 7
  const GENERIC_NAME: string := "JIT frame"

  datatype CogMethodRange = CogMethodRange(start: nat, end: nat, name: string)

  /** The process runs while it is read: the k-th read sees memory `at(k)`. */
  type Timeline = nat -> Memory

  function Still(m: Memory): Timeline {
    (_: nat) => m
  }

  predicate IsMethodType(cmType: nat) {
    cmType == CM_METHOD || cmType == CM_METHOD_FLAGGED_FOR_BECOME
  }

  function AlignUp(addr: nat): Option<nat> {
    if addr + 7 > U64_MAX then None else Some((addr + 7) / 8 * 8)
  }

  function SelectorOf(m: Memory, cmType: nat, methodObject: nat, methodHeader: nat, selectorOop: nat): Option<string> {
    var direct := ReadSelector(m, selectorOop);
    var selector :- if direct.Some? then direct
      else if IsMethodType(cmType) then MaybeSelectorOfMethod(m, methodObject, methodHeader, 0).name
      else None;
    if LooksLikeSelector(selector) then Some(selector) else None
  }

  function NameWith(m: Memory, cmType: nat, methodObject: nat, methodHeader: nat, selector: string): string {
    if cmType == CM_OPEN_PIC then "JIT PIC>>" + selector
    else if cmType == CM_CLOSED_PIC then "JIT closed PIC>>" + selector
    else if IsMethodType(cmType) then
      var className := ClassNameOfMethod(m, methodObject, methodHeader, 0).name;
      if className.Some? then className.value + ">>" + selector else "JIT method>>" + selector
    else "JIT frame>>" + selector
  }

  function ReadNameAt(at: Timeline, t: nat, addr: nat): Option<string> {
    var flags :- CopyUint(at(t), addr + FLAGS_OFFSET, 4);
    var methodObject :- CopyUint(at(t + 1), addr + METHOD_OBJECT_OFFSET, 8);
    var methodHeader :- CopyUint(at(t + 2), addr + COG_METHOD_HEADER_OFFSET, 8);
    var selectorOop :- CopyUint(at(t + 3), addr + SELECTOR_OFFSET, 8);
    var cmType := (flags / 256) % 8;
    var selector := SelectorOf(at(t + 4), cmType, methodObject, methodHeader, selectorOop);
    Some(
      if selector.Some? then NameWith(at(t + 5), cmType, methodObject, methodHeader, selector.value)
      else GENERIC_NAME)
  }

  lemma TwoByteBound(m: Memory, addr: nat)
    requires CopyUint(m, addr, 2).Some?
    ensures CopyUint(m, addr, 2).value < 0x1_0000
  {
    var bytes := CopyBytes(m, addr, 2).value;
    assert bytes[1..][1..] == [];
    assert FromLittleEndian(bytes[1..]) == bytes[1];
  }

  /** The CogMethod header at `addr`.  Its five fields, its selector and its class
      are seven reads, and the process may have moved on between any two of them. */
  function ReadCogMethodAt(at: Timeline, t: nat, addr: nat): (r: Option<CogMethodRange>)
    ensures r.Some? ==>
      && r.value.start == addr && r.value.end % 8 == 0
      && addr + COG_METHOD_SIZE <= r.value.end < addr + 0x1_0000 + 7
  {
    var blockSize :- CopyUint(at(t), addr + BLOCK_SIZE_OFFSET, 2);
    if !(COG_METHOD_SIZE <= blockSize <= COG_SCAN_LIMIT) || addr + blockSize > U64_MAX then None
    else
      TwoByteBound(at(t), addr + BLOCK_SIZE_OFFSET);
      var end :- AlignUp(addr + blockSize);
      var name :- ReadNameAt(at, t + 1, addr);
      Some(CogMethodRange(addr, end, name))
  }

  // ----- the header format, written -----

  datatype CogHeader = CogHeader(
    objectHeader: nat, flags: nat, blockSize: nat, padding: nat,
    methodObject: nat, methodHeader: nat, selector: nat)
  {
    predicate Valid() {
      && objectHeader <= U64_MAX && flags < 0x1_0000_0000 && padding < 0x1_0000
      && COG_METHOD_SIZE <= blockSize < 0x1_0000
      && methodObject <= U64_MAX && methodHeader <= U64_MAX && selector <= U64_MAX
    }

    function CmType(): nat {
      (flags / 256) % 8
    }

    function Encode(): (bytes: seq<Byte>)
      ensures |bytes| == COG_METHOD_SIZE
    {
      ToLittleEndian(objectHeader, 8) + ToLittleEndian(flags, 4) + ToLittleEndian(blockSize, 2)
      + ToLittleEndian(padding, 2) + ToLittleEndian(methodObject, 8) + ToLittleEndian(methodHeader, 8)
      + ToLittleEndian(selector, 8)
    }

    /** Where the next header starts. */
    function End(addr: nat): nat {
      (addr + blockSize + 7) / 8 * 8
    }

    function Name(m: Memory): string {
      var s := SelectorOf(m, CmType(), methodObject, methodHeader, selector);
      if s.Some? then NameWith(m, CmType(), methodObject, methodHeader, s.value) else GENERIC_NAME
    }
  }

  /** Where the fields that are read lie in a written header. */
  lemma FieldOffsets(h: CogHeader)
    ensures h.Encode()[0x08..0x0c] == ToLittleEndian(h.flags, 4)
    ensures h.Encode()[0x0c..0x0e] == ToLittleEndian(h.blockSize, 2)
    ensures h.Encode()[0x10..0x18] == ToLittleEndian(h.methodObject, 8)
    ensures h.Encode()[0x18..0x20] == ToLittleEndian(h.methodHeader, 8)
    ensures h.Encode()[0x20..0x28] == ToLittleEndian(h.selector, 8)
  {
    hide ToLittleEndian;
  }

  lemma FieldsRoundTrip(m: Memory, addr: nat, h: CogHeader)
    requires h.Valid() && PlacedAt(m, addr, h.Encode())
    ensures CopyUint(m, addr + BLOCK_SIZE_OFFSET, 2) == Some(h.blockSize)
    ensures CopyUint(m, addr + FLAGS_OFFSET, 4) == Some(h.flags)
    ensures CopyUint(m, addr + METHOD_OBJECT_OFFSET, 8) == Some(h.methodObject)
    ensures CopyUint(m, addr + COG_METHOD_HEADER_OFFSET, 8) == Some(h.methodHeader)
    ensures CopyUint(m, addr + SELECTOR_OFFSET, 8) == Some(h.selector)
  {
    var bytes := h.Encode();
    FieldOffsets(h);
    hide CogHeader.Encode, CopyUint, PlacedAt, ToLittleEndian;
    FieldAt(m, addr, bytes, 0x08, h.flags, 4);
    FieldAt(m, addr, bytes, 0x0c, h.blockSize, 2);
    FieldAt(m, addr, bytes, 0x10, h.methodObject, 8);
    FieldAt(m, addr, bytes, 0x18, h.methodHeader, 8);
    FieldAt(m, addr, bytes, 0x20, h.selector, 8);
  }

  /** One header round trip: the decoder reads back every field that was written. */
  lemma HeaderRoundTrip(m: Memory, t: nat, addr: nat, h: CogHeader)
    requires h.Valid() && PlacedAt(m, addr, h.Encode())
    requires addr + h.blockSize + 7 <= U64_MAX
    ensures ReadCogMethodAt(Still(m), t, addr) == Some(CogMethodRange(addr, h.End(addr), h.Name(m)))
  {
    hide SelectorOf, NameWith, CopyUint, PlacedAt;
    FieldsRoundTrip(m, addr, h);
  }

  // ----- names a header gives -----

  /** Bits 8 to 10 of the flag word say what a block is: 5 and 6 are methods, 3 an open
      PIC, 2 a closed one.  A block with a selector in its header is named by the text
      this selector points to. */
  lemma HeaderSelectorIsUsed(m: Memory, h: CogHeader, selector: string, other: seq<Byte>, flags: nat)
    requires IsHeapObject(h.selector) && EncodesText(m, h.selector, selector, other, flags)
    requires LooksLikeSelector(selector)
    ensures var kind := h.flags / 256 % 8;
      && (kind == 5 || kind == 6 ==>
            var className := ClassNameOfMethod(m, h.methodObject, h.methodHeader, 0).name;
            h.Name(m) == className.GetOr("JIT method") + ">>" + selector)
      && (kind == 3 ==> h.Name(m) == "JIT PIC>>" + selector)
      && (kind == 2 ==> h.Name(m) == "JIT closed PIC>>" + selector)
      && (kind == 0 || kind == 1 || kind == 4 || kind == 7 ==> h.Name(m) == "JIT frame>>" + selector)
  {
    hide ReadByteObject, MaybeSelectorOfMethod, ClassNameOfMethod, EncodesText, LooksLikeSelector;
    ByteObjectRoundTrip(m, h.selector, selector, other, flags);
    assert SelectorOf(m, h.CmType(), h.methodObject, h.methodHeader, h.selector) == Some(selector);
    hide SelectorOf;
  }

  /** A jitted method or block whose header has its selector gets it, after the class of
      the method it is nested in, or as of no class from too deep. */
  lemma SelectorAndClassAreUsed(m: Memory, h: CogHeader, selector: string, other: seq<Byte>, flags: nat,
          nesting: seq<Code>, binding: nat, className: string, classSide: bool)
    requires h.flags / 256 % 8 == 5 || h.flags / 256 % 8 == 6
    requires IsHeapObject(h.selector) && EncodesText(m, h.selector, selector, other, flags)
    requires LooksLikeSelector(selector)
    requires IsNesting(m, nesting) && nesting[0] == Code(h.methodObject, h.methodHeader)
    requires EndsWithLiteral(m, Home(nesting).obj, Home(nesting).header, binding)
    requires IsBindingOf(m, binding, className, classSide)
    ensures ClassIsInReach(nesting, classSide) ==> h.Name(m) == SideName(className, classSide) + ">>" + selector
    ensures !ClassIsInReach(nesting, classSide) && OnlyBindingNames(m, nesting, binding, classSide)
            ==> h.Name(m) == "JIT method>>" + selector
  {
    hide EncodesText, LooksLikeSelector, EndsWithLiteral, IsBindingOf, ClassNameOfMethod, IsInside, SideName,
      OnlyBindingNames, ClassIsInReach, IsClassName, CogHeader.Name;
    HeaderSelectorIsUsed(m, h, selector, other, flags);
    ClassExactlyInReach(m, nesting, binding, className, classSide);
  }

  lemma NameOfMethodObject(m: Memory, h: CogHeader)
    requires (h.flags / 256 % 8 == 5 || h.flags / 256 % 8 == 6) && ReadSelector(m, h.selector).None?
    ensures var selector := MaybeSelectorOfMethod(m, h.methodObject, h.methodHeader, 0).name;
      var className := ClassNameOfMethod(m, h.methodObject, h.methodHeader, 0).name;
      h.Name(m)
      == if selector.None? || !LooksLikeSelector(selector.value) then "JIT frame"
         else if className.Some? then className.value + ">>" + selector.value
         else "JIT method>>" + selector.value
  {
    hide MaybeSelectorOfMethod, ClassNameOfMethod, LooksLikeSelector, ReadSelector, IsClassName;
  }

  /** A jitted method or block whose header has no selector of its own is named after the
      method it is nested in, as far as that is in reach. */
  lemma MethodHeaderIsNamed(m: Memory, h: CogHeader, nesting: seq<Code>, selector: string, binding: nat,
          className: string, classSide: bool)
    requires (h.flags / 256 % 8 == 5 || h.flags / 256 % 8 == 6) && ReadSelector(m, h.selector).None?
    requires IsMethodWith(m, nesting, selector, binding) && LooksLikeSelector(selector)
    requires nesting[0] == Code(h.methodObject, h.methodHeader)
    requires IsBindingOf(m, binding, className, classSide)
    ensures SelectorIsInReach(m, nesting) && ClassIsInReach(nesting, classSide)
            ==> h.Name(m) == SideName(className, classSide) + ">>" + selector
    ensures SelectorIsInReach(m, nesting)
            && !ClassIsInReach(nesting, classSide) && OnlyBindingNames(m, nesting, binding, classSide)
            ==> h.Name(m) == "JIT method>>" + selector
    ensures !SelectorIsInReach(m, nesting) && BlocksHaveNoSelector(m, nesting) ==> h.Name(m) == "JIT frame"
  {
    NameOfMethodObject(m, h);
    hide CogHeader.Name, ReadSelector, MaybeSelectorOfMethod, ClassNameOfMethod, HasSelector, EndsWithLiteral,
      IsInside, IsBindingOf, LooksLikeSelector, SideName, OnlyBindingNames, BlocksHaveNoSelector, ClassIsInReach,
      SelectorIsInReach, IsClassName;
    WellFormedMethodIsNamed(m, nesting, selector, binding, className, classSide);
  }

  /** A text in the header that is no selector hides the method's own, and a block that is
      no method has none but the header's. */
  lemma WithoutSelectorIsGeneric(m: Memory, h: CogHeader)
    requires var direct := ReadSelector(m, h.selector);
      if direct.Some? then !LooksLikeSelector(direct.value)
      else h.flags / 256 % 8 != 5 && h.flags / 256 % 8 != 6
    ensures h.Name(m) == "JIT frame"
  {
    hide ReadSelector, LooksLikeSelector, NameWith;
  }

  /** A method that has been jitted keeps its header word in its CogMethod, to which the
      first word of the method points; any other keeps it there itself, as a small integer. */
  lemma MethodHeaderIsFound(m: Memory, methodObj: nat, word: nat, h: CogHeader)
    requires LiteralField(m, methodObj, 0) == Some(word)
    requires word % 8 == 1 || (h.Valid() && PlacedAt(m, word, h.Encode()))
    ensures MethodHeaderOf(m, methodObj) == if word % 8 == 1 then Some(word) else Some(h.methodHeader)
  {
    if word % 8 != 1 {
      FieldsRoundTrip(m, word, h);
    }
    hide LiteralField, CopyUint, PlacedAt;
  }

  // ----- what a decoded header can be named -----

  /** The class names and the prefixes of what has no class. */
  ghost predicate IsPrefix(prefix: string) {
    || prefix == "JIT PIC" || prefix == "JIT closed PIC" || prefix == "JIT method" || prefix == "JIT frame"
    || IsClassName(Some(prefix), 2)
  }

  function Qualified(prefix: string, selector: string): string {
    prefix + ">>" + selector
  }

  ghost predicate IsRangeName(name: string) {
    || name == GENERIC_NAME
    || exists prefix, selector ::
         IsPrefix(prefix) && LooksLikeSelector(selector) && name == Qualified(prefix, selector)
  }

  lemma DecodedClassIsPrefix(m: Memory, methodObject: nat, methodHeader: nat)
    ensures var className := ClassNameOfMethod(m, methodObject, methodHeader, 0).name;
      className.Some? ==> IsPrefix(className.value)
  {
    var className := ClassNameOfMethod(m, methodObject, methodHeader, 0).name;
    hide ClassNameOfMethod, Suffixed;
  }

  lemma QualifiedIsRangeName(prefix: string, front: string, selector: string)
    requires IsPrefix(prefix) && LooksLikeSelector(selector) && front == prefix + ">>"
    ensures IsRangeName(front + selector)
  {
    hide IsPrefix, LooksLikeSelector;
    assert front + selector == Qualified(prefix, selector);
  }

  lemma NameWithShape(m: Memory, cmType: nat, methodObject: nat, methodHeader: nat, selector: string)
    requires LooksLikeSelector(selector)
    ensures IsRangeName(NameWith(m, cmType, methodObject, methodHeader, selector))
  {
    hide LooksLikeSelector, ClassNameOfMethod, IsRangeName, IsClassName;
    DecodedClassIsPrefix(m, methodObject, methodHeader);
    var className := ClassNameOfMethod(m, methodObject, methodHeader, 0).name;
    QualifiedIsRangeName("JIT PIC", "JIT PIC>>", selector);
    QualifiedIsRangeName("JIT closed PIC", "JIT closed PIC>>", selector);
    QualifiedIsRangeName("JIT method", "JIT method>>", selector);
    QualifiedIsRangeName("JIT frame", "JIT frame>>", selector);
    if className.Some? {
      QualifiedIsRangeName(className.value, className.value + ">>", selector);
    }
  }

  /** Whatever memory holds and however it changes between the seven reads, a decoded
      header is called "JIT frame", or by a selector after one of four fixed words or
      after a class name with at most two times " class". */
  lemma DecodedNameShape(at: Timeline, t: nat, addr: nat)
    requires ReadCogMethodAt(at, t, addr).Some?
    ensures IsRangeName(ReadCogMethodAt(at, t, addr).value.name)
  {
    var m := at(t + 6);
    forall cmType, methodObject, methodHeader, selector | LooksLikeSelector(selector)
      ensures IsRangeName(NameWith(m, cmType, methodObject, methodHeader, selector))
    {
      NameWithShape(m, cmType, methodObject, methodHeader, selector);
    }
    hide IsRangeName, NameWith, LooksLikeSelector, CopyUint;
  }
}
