/** Which methods and blocks get the name they should have.  A method is named after its
    own literals; a block keeps its enclosing block or method as its last literal, and
    the decoders follow these references only so far. */
module NamedMethods {
  import opened Wrappers
  import opened TargetMemory
  import opened SpurObjects
  import opened MethodNames

  // ----- methods, as they lie in the heap -----

  /** The additional state of a method: the method itself, then its selector. */
  predicate IsPropertiesOf(m: Memory, oop: nat, methodObj: nat, selector: string) {
    && IsPointerObject(m, oop)
    && NumSlots(m, oop).Some? && NumSlots(m, oop).value >= 2
    && LiteralField(m, oop, 0) == Some(methodObj)
    && var field := LiteralField(m, oop, 1);
    && field.Some? && IsWordsOrBytes(m, field.value) && ReadSelector(m, field.value) == Some(selector)
  }

  /** A method whose last literal but one is its selector, or its additional state. */
  predicate HasSelector(m: Memory, methodObj: nat, methodHeader: nat, selector: string) {
    && IsCompiledMethod(m, methodObj)
    && var count := LiteralCountOfMethod(m, methodObj, methodHeader);
    && count.Some? && count.value >= 2
    && var penultimate := LiteralOfMethod(m, methodObj, count.value - 2);
    && penultimate.Some?
    && if IsWordsOrBytes(m, penultimate.value) then ReadSelector(m, penultimate.value) == Some(selector)
       else IsPropertiesOf(m, penultimate.value, methodObj, selector)
  }

  /** The method has `last` as its last literal. */
  predicate EndsWithLiteral(m: Memory, methodObj: nat, methodHeader: nat, last: nat) {
    && IsCompiledMethod(m, methodObj)
    && var count := LiteralCountOfMethod(m, methodObj, methodHeader);
    && count.Some? && count.value >= 1
    && LiteralOfMethod(m, methodObj, count.value - 1) == Some(last)
  }

  /** A class binding: two slots, the key naming the class. */
  predicate IsClassBinding(m: Memory, binding: nat, className: string) {
    && IsPointerObject(m, binding) && NumSlots(m, binding) == Some(2)
    && LiteralField(m, binding, 0).Some?
    && ReadByteObject(m, LiteralField(m, binding, 0).value) == Some(className)
    && LooksLikeClassName(className)
  }

  /** The binding of a class-side method: no key, and as value a metaclass of six
      slots whose last is the class, which holds its name in slot 6. */
  predicate IsMetaclassBinding(m: Memory, binding: nat, className: string) {
    && IsPointerObject(m, binding) && NumSlots(m, binding) == Some(2)
    && LiteralField(m, binding, 0) == Some(NIL_OBJECT)
    && var metaclass := LiteralField(m, binding, 1);
    && metaclass.Some? && IsPointerObject(m, metaclass.value) && NumSlots(m, metaclass.value) == Some(6)
    && var class_ := LiteralField(m, metaclass.value, 5);
    && class_.Some? && class_.value != metaclass.value && IsPointerObject(m, class_.value)
    && NumSlots(m, class_.value).Some? && NumSlots(m, class_.value).value > 6
    && LiteralField(m, class_.value, 6).Some?
    && ReadByteObject(m, LiteralField(m, class_.value, 6).value) == Some(className)
    && LooksLikeClassName(className)
  }

  /** The binding of a class or, on the class side, of its metaclass. */
  predicate IsBindingOf(m: Memory, binding: nat, className: string, classSide: bool) {
    if classSide then IsMetaclassBinding(m, binding, className) else IsClassBinding(m, binding, className)
  }

  function SideName(className: string, classSide: bool): string {
    className + if classSide then CLASS_SUFFIX else ""
  }

  // ----- blocks -----

  /** A compiled method or block, with the header word it is decoded under. */
  datatype Code = Code(obj: nat, header: nat)

  predicate IsInside(m: Memory, block: Code, outer: Code) {
    && EndsWithLiteral(m, block.obj, block.header, outer.obj)
    && IsCompiledMethod(m, outer.obj) && MethodHeaderOf(m, outer.obj) == Some(outer.header)
  }

  /** A block with all that it is nested in, out to its method; a method alone is a
      nesting of one. */
  predicate IsNesting(m: Memory, nesting: seq<Code>) {
    nesting != [] && forall i | 0 <= i < |nesting| - 1 :: IsInside(m, nesting[i], nesting[i + 1])
  }

  function Home(nesting: seq<Code>): Code
    requires nesting != []
  {
    nesting[|nesting| - 1]
  }

  function LiteralCount(m: Memory, code: Code): nat {
    LiteralCountOfMethod(m, code.obj, code.header).GetOr(0)
  }

  lemma InnerNesting(m: Memory, nesting: seq<Code>)
    requires IsNesting(m, nesting) && |nesting| > 1
    ensures IsNesting(m, nesting[1..]) && Home(nesting[1..]) == Home(nesting)
    ensures IsInside(m, nesting[0], nesting[1])
  {
    forall i | 0 <= i < |nesting[1..]| - 1 ensures IsInside(m, nesting[1..][i], nesting[1..][i + 1]) {
      assert IsInside(m, nesting[i + 1], nesting[i + 2]);
    }
  }

  // ----- the selector -----

  /** The selector of the method is looked for through at most four blocks, each of
      which must have two literals. */
  predicate SelectorIsInReach(m: Memory, nesting: seq<Code>) {
    |nesting| <= 5 && forall i | 0 <= i < |nesting| - 1 :: LiteralCount(m, nesting[i]) >= 2
  }

  /** The last literal but one of every block names nothing. */
  predicate BlocksHaveNoSelector(m: Memory, nesting: seq<Code>) {
    forall i | 0 <= i < |nesting| - 1 && LiteralCount(m, nesting[i]) >= 2 ::
      SelectorOfPenultimate(m, nesting[i].obj, LiteralCount(m, nesting[i]), 0).name.None?
  }

  lemma OwnSelector(m: Memory, code: Code, last: nat, selector: string, depth: nat)
    requires HasSelector(m, code.obj, code.header, selector) && depth <= MAX_SELECTOR_DEPTH
    requires EndsWithLiteral(m, code.obj, code.header, last) && !IsCompiledMethod(m, last)
    ensures MaybeSelectorOfMethod(m, code.obj, code.header, depth).name == Some(selector)
  {
    hide LiteralField, ReadSelector, IsCompiledMethod, NumSlots, LiteralCountOfMethod;
  }

  /** One step outwards. */
  lemma SelectorOfBlock(m: Memory, block: Code, outer: Code, depth: nat)
    requires IsInside(m, block, outer) && depth <= MAX_SELECTOR_DEPTH
    ensures var name := MaybeSelectorOfMethod(m, block.obj, block.header, depth).name;
      var count := LiteralCount(m, block);
      if count < 2 then name == None
      else
        var outerName := MaybeSelectorOfMethod(m, outer.obj, outer.header, depth + 1).name;
        name == if outerName.Some? then outerName else SelectorOfPenultimate(m, block.obj, count, 0).name
  {
    hide LiteralField, ReadSelector, IsCompiledMethod, NumSlots, LiteralCountOfMethod, MethodHeaderOf;
  }

  lemma {:induction false} SelectorIsFound(m: Memory, nesting: seq<Code>, last: nat, selector: string, depth: nat)
    requires IsNesting(m, nesting) && depth + |nesting| <= MAX_SELECTOR_DEPTH + 1
    requires forall i | 0 <= i < |nesting| - 1 :: LiteralCount(m, nesting[i]) >= 2
    requires HasSelector(m, Home(nesting).obj, Home(nesting).header, selector)
    requires EndsWithLiteral(m, Home(nesting).obj, Home(nesting).header, last) && !IsCompiledMethod(m, last)
    ensures MaybeSelectorOfMethod(m, nesting[0].obj, nesting[0].header, depth).name == Some(selector)
    decreases |nesting|
  {
    hide HasSelector, EndsWithLiteral, MaybeSelectorOfMethod, IsCompiledMethod;
    if |nesting| == 1 {
      OwnSelector(m, nesting[0], last, selector, depth);
    } else {
      InnerNesting(m, nesting);
      SelectorOfBlock(m, nesting[0], nesting[1], depth);
      SelectorIsFound(m, nesting[1..], last, selector, depth + 1);
    }
  }

  lemma InnerBlocks(m: Memory, nesting: seq<Code>)
    requires |nesting| > 1 && BlocksHaveNoSelector(m, nesting)
    ensures BlocksHaveNoSelector(m, nesting[1..])
    ensures LiteralCount(m, nesting[0]) >= 2 ==>
              SelectorOfPenultimate(m, nesting[0].obj, LiteralCount(m, nesting[0]), 0).name.None?
  {
    hide LiteralCount, SelectorOfPenultimate;
    assert forall i | 0 <= i < |nesting[1..]| - 1 :: nesting[1..][i] == nesting[i + 1];
  }

  /** Some block on the way out lacks its second literal. */
  predicate LacksLiteral(m: Memory, nesting: seq<Code>) {
    exists i :: 0 <= i < |nesting| - 1 && LiteralCount(m, nesting[i]) < 2
  }

  lemma {:induction false} SelectorIsMissed(m: Memory, nesting: seq<Code>, depth: nat)
    requires IsNesting(m, nesting) && BlocksHaveNoSelector(m, nesting)
    requires depth + |nesting| > MAX_SELECTOR_DEPTH + 1 || LacksLiteral(m, nesting)
    ensures MaybeSelectorOfMethod(m, nesting[0].obj, nesting[0].header, depth).name == None
    decreases |nesting|
  {
    if depth <= MAX_SELECTOR_DEPTH {
      hide MaybeSelectorOfMethod, LiteralCount, SelectorOfPenultimate, IsInside, BlocksHaveNoSelector;
      InnerNesting(m, nesting);
      InnerBlocks(m, nesting);
      SelectorOfBlock(m, nesting[0], nesting[1], depth);
      if LiteralCount(m, nesting[0]) >= 2 {
        if LacksLiteral(m, nesting) {
          var i :| 0 <= i < |nesting| - 1 && LiteralCount(m, nesting[i]) < 2;
          assert nesting[1..][i - 1] == nesting[i];
        }
        SelectorIsMissed(m, nesting[1..], depth + 1);
      }
    }
  }

  // ----- the class -----

  /** How many blocks deep the class of a method is found: one less on the way through
      its metaclass for each of the two references. */
  function ClassReach(classSide: bool): nat {
    if classSide then 1 else 3
  }

  /** No slot of the metaclass before the last is a class name. */
  predicate HasNoText(m: Memory, metaclass: nat) {
    forall k: nat | k < 5 :: var slot := LiteralField(m, metaclass, k);
      slot.Some? ==> ClassNameString(m, slot.value).None?
  }

  predicate MetaclassHasNoText(m: Memory, binding: nat) {
    LiteralField(m, binding, 1).Some? ==> HasNoText(m, LiteralField(m, binding, 1).value)
  }

  lemma PointerObjectIsNotText(m: Memory, oop: nat)
    requires IsPointerObject(m, oop)
    ensures ReadByteObject(m, oop).None?
  {
    if CopyBytes(m, oop, BASE_HEADER_SIZE).Some? {
      FormatByte(m, oop);
    }
  }

  lemma NilIsNotText(m: Memory)
    ensures ReadByteObject(m, NIL_OBJECT).None?
  {
  }

  /** Through the binding of a class its name is found at any depth the decoder goes to. */
  lemma ClassBindingAt(m: Memory, binding: nat, className: string, depth: nat)
    requires IsClassBinding(m, binding, className)
    ensures ClassNameFromMethodLiteral(m, binding, depth).name
            == if depth <= MAX_CLASS_NAME_DEPTH then Some(className) else None
  {
    hide LiteralField, ReadByteObject, LooksLikeClassName, Suffixed, IsClassName;
    if depth <= MAX_CLASS_NAME_DEPTH {
      assert ClassNameString(m, LiteralField(m, binding, 0).value) == Some(className);
      assert ClassNameInSlots(m, binding, 0, 2).name == Some(className);
      if depth < MAX_CLASS_NAME_DEPTH {
        assert ClassNameFromClassObject(m, binding, depth + 1).name == Some(className);
      } else {
        assert ClassNameFromClassObject(m, binding, 5).name == None;
        assert LiteralField(m, binding, 1).Some? ==>
            ClassNameFromClassObject(m, LiteralField(m, binding, 1).value, 5).name == None;
        assert ClassNameOfBinding(m, binding, 4).name == Some(className);
      }
    }
  }

  lemma BindingSlotsHaveNoText(m: Memory, binding: nat, className: string)
    requires IsMetaclassBinding(m, binding, className)
    ensures ClassNameString(m, NIL_OBJECT) == None
    ensures ClassNameString(m, LiteralField(m, binding, 1).value) == None
    ensures ClassNameInSlots(m, binding, 0, 2).name == None
    ensures forall depth: nat :: ClassNameFromClassObject(m, binding, depth).name == None
  {
    hide LiteralField, ReadByteObject, LooksLikeClassName, Suffixed, IsClassName;
    NilIsNotText(m);
    PointerObjectIsNotText(m, LiteralField(m, binding, 1).value);
    assert ClassNameInSlots(m, binding, 1, 2).name == None;
    assert ClassNameInSlots(m, binding, 0, 2).name == None;
  }

  lemma MetaclassBindingIsNamed(m: Memory, binding: nat, className: string, depth: nat)
    requires IsMetaclassBinding(m, binding, className) && depth <= 2
    ensures ClassNameFromMethodLiteral(m, binding, depth).name == Some(className + CLASS_SUFFIX)
  {
    BindingSlotsHaveNoText(m, binding, className);
    hide LiteralField, ReadByteObject, LooksLikeClassName, Suffixed, IsClassName;
    var metaclass := LiteralField(m, binding, 1).value;
    var class_ := LiteralField(m, metaclass, 5).value;
    assert ClassNameFromClassObject(m, binding, depth + 1).name == None;
    assert ClassNameFromClassObject(m, class_, depth + 2).name == Some(className);
    assert ClassNameFromClassObject(m, metaclass, depth + 1).name == Some(className + CLASS_SUFFIX);
    assert ClassNameOfBinding(m, binding, depth).name == Some(className + CLASS_SUFFIX);
  }

  lemma {:induction false} FieldsBelowAreNotRead(m: Memory, oop: nat, offset: nat, n: nat)
    requires offset <= n
    ensures ClassNameInFields(m, oop, offset, n, MAX_CLASS_NAME_DEPTH).name == None
    decreases n - offset
  {
    if offset < n {
      FieldsBelowAreNotRead(m, oop, offset + 1, n);
    }
  }

  lemma {:induction false} MetaclassSlots(m: Memory, metaclass: nat, offset: nat)
    requires HasNoText(m, metaclass) && offset <= 6
    ensures ClassNameInSlots(m, metaclass, offset, 6).name == None
    decreases 6 - offset
  {
    if offset < 6 {
      MetaclassSlots(m, metaclass, offset + 1);
    }
  }

  /** Four levels down a metaclass is looked at, but not the class it is the class of. */
  lemma MetaclassAtTheLimit(m: Memory, metaclass: nat)
    requires IsPointerObject(m, metaclass) && NumSlots(m, metaclass) == Some(6) && HasNoText(m, metaclass)
    ensures ClassNameFromClassObject(m, metaclass, 4).name == None
    ensures ClassNameFromMethodLiteral(m, metaclass, 4).name == None
  {
    MetaclassSlots(m, metaclass, 0);
    FieldsBelowAreNotRead(m, metaclass, 0, 6);
    var key := LiteralField(m, metaclass, 0);
    hide LiteralField, ReadByteObject, LooksLikeClassName, Suffixed, IsClassName, ClassNameInSlots, ClassNameInFields;
    assert ClassNameOfBinding(m, metaclass, 4).name == None;
  }

  lemma MetaclassBindingIsMissed(m: Memory, binding: nat, className: string, depth: nat)
    requires IsMetaclassBinding(m, binding, className) && MetaclassHasNoText(m, binding) && depth > 2
    ensures ClassNameFromMethodLiteral(m, binding, depth).name == None
  {
    BindingSlotsHaveNoText(m, binding, className);
    var metaclass := LiteralField(m, binding, 1).value;
    MetaclassAtTheLimit(m, metaclass);
    FieldsBelowAreNotRead(m, binding, 0, 2);
    hide LiteralField, ReadByteObject, LooksLikeClassName, Suffixed, IsClassName, ClassNameInSlots, ClassNameString,
      IsPointerObject, NumSlots;
    if depth == 3 {
      assert ClassNameOfBinding(m, binding, 3).name == None;
      assert ClassNameFromMethodLiteral(m, NIL_OBJECT, 4).name == None;
      assert ClassNameInFields(m, binding, 2, 2, 3).name == None;
      assert ClassNameInFields(m, binding, 1, 2, 3).name == None;
      assert ClassNameInFields(m, binding, 0, 2, 3).name == None;
    } else if depth == 4 {
      assert ClassNameFromClassObject(m, metaclass, 5).name == None;
      assert ClassNameOfBinding(m, binding, 4).name == None;
    }
  }

  /** Both kinds of binding, at every depth of the literal. */
  lemma BindingAt(m: Memory, binding: nat, className: string, classSide: bool, depth: nat)
    requires IsBindingOf(m, binding, className, classSide)
    ensures var name := ClassNameFromMethodLiteral(m, binding, depth).name;
      && (depth <= ClassReach(classSide) + 1 ==> name == Some(SideName(className, classSide)))
      && (depth > ClassReach(classSide) + 1 && (classSide ==> MetaclassHasNoText(m, binding)) ==> name == None)
  {
    hide IsMetaclassBinding, IsClassBinding, ClassNameFromMethodLiteral, MetaclassHasNoText;
    if classSide {
      if depth <= 2 {
        MetaclassBindingIsNamed(m, binding, className, depth);
      } else if MetaclassHasNoText(m, binding) {
        MetaclassBindingIsMissed(m, binding, className, depth);
      }
    } else {
      ClassBindingAt(m, binding, className, depth);
      assert className + "" == className;
    }
  }

  /** Of the last four literals, those before the last name no class at any depth. */
  ghost predicate OthersNameNoClass(m: Memory, code: Code) {
    forall k: nat, depth: nat | k + 1 < LiteralCount(m, code) <= k + 4 && depth <= MAX_CLASS_NAME_DEPTH ::
      ClassNameOfLiteral(m, LiteralOfMethod(m, code.obj, k), depth).name.None?
  }

  lemma {:induction false} NoneInLiterals(m: Memory, methodObj: nat, first: nat, n: nat, depth: nat)
    requires depth <= MAX_CLASS_NAME_DEPTH
    requires forall k: nat | first <= k < first + n ::
               ClassNameOfLiteral(m, LiteralOfMethod(m, methodObj, k), depth).name.None?
    ensures ClassNameInLiterals(m, methodObj, first, n, depth).name == None
    decreases n
  {
    if n > 0 {
      NoneInLiterals(m, methodObj, first, n - 1, depth);
    }
  }

  /** The last literal is looked at first, and decides if it names a class. */
  lemma LastLiteralDecides(m: Memory, code: Code, last: nat, depth: nat)
    requires EndsWithLiteral(m, code.obj, code.header, last) && depth <= MAX_CLASS_NAME_DEPTH
    ensures var name := ClassNameOfMethod(m, code.obj, code.header, depth).name;
      var ofLast := ClassNameOfLiteral(m, Some(last), depth).name;
      && (ofLast.Some? ==> name == ofLast)
      && (ofLast.None? && OthersNameNoClass(m, code) ==> name == None)
  {
    hide LiteralOfMethod, LiteralCountOfMethod, IsCompiledMethod, ClassNameOfLiteral, Suffixed;
    var count := LiteralCount(m, code);
    var n := AtMost(count, MAX_CLASS_LITERAL_SCAN);
    assert (count - n) + n - 1 == count - 1;
    if OthersNameNoClass(m, code) {
      NoneInLiterals(m, code.obj, count - n, n - 1, depth);
    }
  }

  lemma {:induction false} LastNamedInLiterals(m: Memory, methodObj: nat, first: nat, n: nat, depth: nat, k: nat)
    requires depth <= MAX_CLASS_NAME_DEPTH && first <= k < first + n
    requires ClassNameOfLiteral(m, LiteralOfMethod(m, methodObj, k), depth).name.Some?
    requires forall j: nat | k < j < first + n ::
               ClassNameOfLiteral(m, LiteralOfMethod(m, methodObj, j), depth).name.None?
    ensures ClassNameInLiterals(m, methodObj, first, n, depth).name
            == ClassNameOfLiteral(m, LiteralOfMethod(m, methodObj, k), depth).name
    decreases n
  {
    hide ClassNameOfLiteral, LiteralOfMethod, Suffixed;
    if k + 1 < first + n {
      LastNamedInLiterals(m, methodObj, first, n - 1, depth, k);
    }
  }

  /** Of the last four literals of a method the last one that names a class decides, at
      every depth down to the fourth. */
  lemma LastOfFourDecides(m: Memory, code: Code, depth: nat, k: nat)
    requires IsCompiledMethod(m, code.obj) && depth <= 4
    requires k < LiteralCount(m, code) <= k + 4
    requires ClassNameOfLiteral(m, LiteralOfMethod(m, code.obj, k), depth).name.Some?
    requires forall j: nat | k < j < LiteralCount(m, code) ::
               ClassNameOfLiteral(m, LiteralOfMethod(m, code.obj, j), depth).name.None?
    ensures ClassNameOfMethod(m, code.obj, code.header, depth).name
            == ClassNameOfLiteral(m, LiteralOfMethod(m, code.obj, k), depth).name
  {
    hide LiteralOfMethod, LiteralCountOfMethod, IsCompiledMethod, ClassNameOfLiteral, Suffixed;
    var count := LiteralCount(m, code);
    var n := AtMost(count, MAX_CLASS_LITERAL_SCAN);
    LastNamedInLiterals(m, code.obj, count - n, n, depth, k);
  }

  /** A literal that is the text of a class name names that class. */
  lemma TextLiteralNamesClass(m: Memory, oop: nat, name: string, depth: nat)
    requires IsWordsOrBytes(m, oop) && ReadByteObject(m, oop) == Some(name) && LooksLikeClassName(name) && depth <= 4
    ensures ClassNameFromMethodLiteral(m, oop, depth).name == Some(name)
  {
    NilIsNotText(m);
    hide ReadByteObject, LooksLikeClassName, Suffixed, IsClassName;
    assert ClassNameString(m, oop) == Some(name);
  }

  /** An object that is its own class is named by its slots, without the suffix. */
  lemma ClassOfItselfHasNoSuffix(m: Memory, oop: nat, depth: nat)
    requires IsPointerObject(m, oop) && NumSlots(m, oop) == Some(6) && LiteralField(m, oop, 5) == Some(oop)
    requires depth <= 4
    ensures ClassNameFromClassObject(m, oop, depth).name == ClassNameInSlots(m, oop, 0, 6).name
  {
    hide LiteralField, ReadByteObject, IsPointerObject, NumSlots, ClassNameInSlots, IsClassName, Suffixed;
  }

  /** What the k-th field of a literal is called, looked at as a literal itself. */
  function NameOfField(m: Memory, oop: nat, k: nat, depth: nat): Option<string> {
    var field := LiteralField(m, oop, k);
    if field.Some? then ClassNameFromMethodLiteral(m, field.value, depth + 1).name else None
  }

  lemma {:induction false} FirstNamedField(m: Memory, oop: nat, offset: nat, n: nat, depth: nat, k: nat)
    requires depth <= MAX_CLASS_NAME_DEPTH && offset <= k < n
    requires NameOfField(m, oop, k, depth).Some?
    requires forall j: nat | offset <= j < k :: NameOfField(m, oop, j, depth).None?
    ensures ClassNameInFields(m, oop, offset, n, depth).name == NameOfField(m, oop, k, depth)
    decreases n - offset
  {
    hide LiteralField, ClassNameFromMethodLiteral, IsClassName;
    if offset < k {
      assert NameOfField(m, oop, offset, depth).None?;
      FirstNamedField(m, oop, offset + 1, n, depth, k);
    }
  }

  /** A literal that is named neither as a class nor as a binding is named after the first
      of its first eight fields that has a name. */
  lemma FirstFieldNamesLiteral(m: Memory, oop: nat, depth: nat, k: nat)
    requires IsPointerObject(m, oop) && NumSlots(m, oop).Some? && k < NumSlots(m, oop).value && k < 8 && depth <= 4
    requires ClassNameFromClassObject(m, oop, depth + 1).name.None? && ClassNameOfBinding(m, oop, depth).name.None?
    requires NameOfField(m, oop, k, depth).Some? && forall j: nat | j < k :: NameOfField(m, oop, j, depth).None?
    ensures ClassNameFromMethodLiteral(m, oop, depth).name == NameOfField(m, oop, k, depth)
  {
    hide LiteralField, IsClassName, ClassNameFromClassObject, ClassNameOfBinding, ClassNameInFields, NumSlots,
      NameOfField;
    FirstNamedField(m, oop, 0, AtMost(NumSlots(m, oop).value, MAX_CLASS_OBJECT_SCAN), depth, k);
  }

  /** Additional state that belongs to another method names nothing. */
  lemma ForeignStateNamesNothing(m: Memory, code: Code, last: nat, state: nat, depth: nat)
    requires EndsWithLiteral(m, code.obj, code.header, last) && !IsCompiledMethod(m, last)
    requires LiteralCount(m, code) >= 2
    requires LiteralOfMethod(m, code.obj, LiteralCount(m, code) - 2) == Some(state)
    requires IsPointerObject(m, state) && LiteralField(m, state, 0) != Some(code.obj)
    ensures MaybeSelectorOfMethod(m, code.obj, code.header, depth).name == None
  {
    assert !IsWordsOrBytes(m, state);
    hide LiteralOfMethod, LiteralField, ReadSelector, IsCompiledMethod, IsWordsOrBytes, IsPointerObject, NumSlots,
      LiteralCountOfMethod;
  }

  /** A binding is no method, so it is only looked at as a literal. */
  lemma BindingIsLiteral(m: Memory, binding: nat, depth: nat)
    requires IsPointerObject(m, binding) && depth <= MAX_CLASS_NAME_DEPTH
    ensures ClassNameOfLiteral(m, Some(binding), depth).name == ClassNameFromMethodLiteral(m, binding, depth + 1).name
  {
    hide ClassNameFromMethodLiteral, ClassNameOfMethod;
  }

  /** A method is no binding, so it only counts for what it is itself called. */
  lemma OuterIsMethod(m: Memory, outer: Code, depth: nat)
    requires IsCompiledMethod(m, outer.obj) && MethodHeaderOf(m, outer.obj) == Some(outer.header)
    requires depth <= MAX_CLASS_NAME_DEPTH
    ensures ClassNameOfLiteral(m, Some(outer.obj), depth).name
            == ClassNameOfMethod(m, outer.obj, outer.header, depth + 1).name
  {
    hide ClassNameOfMethod, MethodHeaderOf;
    assert ClassNameFromMethodLiteral(m, outer.obj, depth + 1).name == None;
  }

  /** Nothing but the binding of the method can be taken for its class. */
  ghost predicate OnlyBindingNames(m: Memory, nesting: seq<Code>, binding: nat, classSide: bool) {
    && (forall i | 0 <= i < |nesting| :: OthersNameNoClass(m, nesting[i]))
    && (classSide ==> MetaclassHasNoText(m, binding))
  }

  lemma BindingIsPointer(m: Memory, binding: nat, className: string, classSide: bool)
    requires IsBindingOf(m, binding, className, classSide)
    ensures IsPointerObject(m, binding)
  {
    hide IsPointerObject, LiteralField, NumSlots, ReadByteObject, LooksLikeClassName;
  }

  lemma TooDeep(m: Memory, code: Code, depth: nat)
    requires depth > MAX_CLASS_NAME_DEPTH
    ensures ClassNameOfMethod(m, code.obj, code.header, depth).name == None
  {
  }

  lemma ClassOfHome(m: Memory, home: Code, binding: nat, className: string, classSide: bool, depth: nat)
    requires IsBindingOf(m, binding, className, classSide) && EndsWithLiteral(m, home.obj, home.header, binding)
    ensures var name := ClassNameOfMethod(m, home.obj, home.header, depth).name;
      && (depth <= ClassReach(classSide) ==> name == Some(SideName(className, classSide)))
      && (depth > ClassReach(classSide) && OthersNameNoClass(m, home) && (classSide ==> MetaclassHasNoText(m, binding))
          ==> name == None)
  {
    hide IsBindingOf, EndsWithLiteral, ClassNameOfMethod, ClassNameOfLiteral, ClassNameFromMethodLiteral,
      IsPointerObject, SideName, OthersNameNoClass, MetaclassHasNoText, IsClassName;
    if depth <= MAX_CLASS_NAME_DEPTH {
      BindingIsPointer(m, binding, className, classSide);
      LastLiteralDecides(m, home, binding, depth);
      BindingIsLiteral(m, binding, depth);
      BindingAt(m, binding, className, classSide, depth + 1);
    } else {
      TooDeep(m, home, depth);
    }
  }

  /** One step outwards. */
  lemma ClassOfBlock(m: Memory, block: Code, outer: Code, depth: nat)
    requires IsInside(m, block, outer)
    ensures var name := ClassNameOfMethod(m, block.obj, block.header, depth).name;
      var outerName := ClassNameOfMethod(m, outer.obj, outer.header, depth + 1).name;
      && (outerName.Some? ==> name == outerName)
      && (outerName.None? && OthersNameNoClass(m, block) ==> name == None)
  {
    hide EndsWithLiteral, ClassNameOfMethod, OthersNameNoClass, IsCompiledMethod, IsClassName, MethodHeaderOf;
    if depth <= MAX_CLASS_NAME_DEPTH {
      LastLiteralDecides(m, block, outer.obj, depth);
      OuterIsMethod(m, outer, depth);
    } else {
      TooDeep(m, block, depth);
      TooDeep(m, outer, depth + 1);
    }
  }

  lemma {:induction false} ClassIsFound(m: Memory, nesting: seq<Code>, binding: nat, className: string,
          classSide: bool, depth: nat)
    requires IsNesting(m, nesting) && IsBindingOf(m, binding, className, classSide)
    requires EndsWithLiteral(m, Home(nesting).obj, Home(nesting).header, binding)
    requires depth + |nesting| <= ClassReach(classSide) + 1
    ensures ClassNameOfMethod(m, nesting[0].obj, nesting[0].header, depth).name
            == Some(SideName(className, classSide))
    decreases |nesting|
  {
    hide IsBindingOf, EndsWithLiteral, ClassNameOfMethod, SideName, OnlyBindingNames, IsClassName, IsInside;
    if |nesting| == 1 {
      ClassOfHome(m, nesting[0], binding, className, classSide, depth);
    } else {
      InnerNesting(m, nesting);
      ClassOfBlock(m, nesting[0], nesting[1], depth);
      ClassIsFound(m, nesting[1..], binding, className, classSide, depth + 1);
    }
  }

  lemma {:induction false} ClassIsMissed(m: Memory, nesting: seq<Code>, binding: nat, className: string,
          classSide: bool, depth: nat)
    requires IsNesting(m, nesting) && IsBindingOf(m, binding, className, classSide)
    requires EndsWithLiteral(m, Home(nesting).obj, Home(nesting).header, binding)
    requires depth + |nesting| > ClassReach(classSide) + 1
    requires OnlyBindingNames(m, nesting, binding, classSide)
    ensures ClassNameOfMethod(m, nesting[0].obj, nesting[0].header, depth).name == None
    decreases |nesting|
  {
    hide IsBindingOf, EndsWithLiteral, ClassNameOfMethod, SideName, IsClassName, IsInside, OthersNameNoClass,
      MetaclassHasNoText;
    assert OthersNameNoClass(m, nesting[0]);
    if |nesting| == 1 {
      ClassOfHome(m, nesting[0], binding, className, classSide, depth);
    } else {
      InnerNesting(m, nesting);
      ClassOfBlock(m, nesting[0], nesting[1], depth);
      ClassIsMissed(m, nesting[1..], binding, className, classSide, depth + 1);
    }
  }

  // ----- both together -----

  /** The method of the nesting keeps its selector last but one and its binding last. */
  predicate IsMethodWith(m: Memory, nesting: seq<Code>, selector: string, binding: nat) {
    && IsNesting(m, nesting)
    && HasSelector(m, Home(nesting).obj, Home(nesting).header, selector)
    && EndsWithLiteral(m, Home(nesting).obj, Home(nesting).header, binding)
  }

  predicate ClassIsInReach(nesting: seq<Code>, classSide: bool) {
    |nesting| <= ClassReach(classSide) + 1
  }

  /** The class of a method is found from a block in it if the block is not too deep, and
      otherwise is not, when nothing else can be taken for it. */
  lemma ClassExactlyInReach(m: Memory, nesting: seq<Code>, binding: nat, className: string, classSide: bool)
    requires IsNesting(m, nesting) && EndsWithLiteral(m, Home(nesting).obj, Home(nesting).header, binding)
    requires IsBindingOf(m, binding, className, classSide)
    ensures var name := ClassNameOfMethod(m, nesting[0].obj, nesting[0].header, 0).name;
      && (ClassIsInReach(nesting, classSide) ==> name == Some(SideName(className, classSide)))
      && (OnlyBindingNames(m, nesting, binding, classSide) && !ClassIsInReach(nesting, classSide) ==> name == None)
  {
    hide ClassNameOfMethod, EndsWithLiteral, IsBindingOf, OnlyBindingNames, IsInside;
    if ClassIsInReach(nesting, classSide) {
      ClassIsFound(m, nesting, binding, className, classSide, 0);
    } else if OnlyBindingNames(m, nesting, binding, classSide) {
      ClassIsMissed(m, nesting, binding, className, classSide, 0);
    }
  }

  /** The same of its selector. */
  lemma SelectorExactlyInReach(m: Memory, nesting: seq<Code>, selector: string, binding: nat)
    requires IsMethodWith(m, nesting, selector, binding) && IsPointerObject(m, binding)
    ensures var name := MaybeSelectorOfMethod(m, nesting[0].obj, nesting[0].header, 0).name;
      && (SelectorIsInReach(m, nesting) ==> name == Some(selector))
      && (BlocksHaveNoSelector(m, nesting) && !SelectorIsInReach(m, nesting) ==> name == None)
  {
    assert !IsCompiledMethod(m, binding);
    hide MaybeSelectorOfMethod, EndsWithLiteral, HasSelector, BlocksHaveNoSelector, IsInside;
    if SelectorIsInReach(m, nesting) {
      SelectorIsFound(m, nesting, binding, selector, 0);
    } else if BlocksHaveNoSelector(m, nesting) {
      SelectorIsMissed(m, nesting, 0);
    }
  }

  /** A method, or a block not too deep in one, gets the selector and the class of the
      method: the selector from four blocks deep, the class from three, and on the
      class side only from one.  From further in nothing is found, unless something
      else is taken for the name. */
  lemma WellFormedMethodIsNamed(m: Memory, nesting: seq<Code>, selector: string, binding: nat,
          className: string, classSide: bool)
    requires IsMethodWith(m, nesting, selector, binding) && IsBindingOf(m, binding, className, classSide)
    ensures BlocksHaveNoSelector(m, nesting) || SelectorIsInReach(m, nesting) ==>
              MaybeSelectorOfMethod(m, nesting[0].obj, nesting[0].header, 0).name
              == if SelectorIsInReach(m, nesting) then Some(selector) else None
    ensures OnlyBindingNames(m, nesting, binding, classSide) || ClassIsInReach(nesting, classSide) ==>
              ClassNameOfMethod(m, nesting[0].obj, nesting[0].header, 0).name
              == if ClassIsInReach(nesting, classSide) then Some(SideName(className, classSide)) else None
  {
    assert IsPointerObject(m, binding);
    hide ClassNameOfMethod, MaybeSelectorOfMethod, EndsWithLiteral, HasSelector, IsBindingOf, OnlyBindingNames,
      BlocksHaveNoSelector, SelectorIsInReach, ClassIsInReach, IsInside, SideName;
    ClassExactlyInReach(m, nesting, binding, className, classSide);
    SelectorExactlyInReach(m, nesting, selector, binding);
  }

  // ----- a block that loses its class -----

  // A method Foo class>>run with a block in it, and a block in that.
  const SELECTOR: nat := 0x1000
  const CLASS_NAME: nat := 0x1020
  const FOO: nat := 0x1040
  const FOO_CLASS: nat := 0x1080
  const BINDING: nat := 0x10C0
  const RUN: nat := 0x10E0
  const BLOCK: nat := 0x1100
  const INNER_BLOCK: nat := 0x1120
  const TWO_LITERALS: nat := 17

  function TextBytes(s: string): seq<Byte>
    requires IsPrintable(s) && 1 <= |s| <= 512
  {
    EncodeByteObject(s, [0, 0, 0, 0, 0, 0], 0)
  }

  function NestedObjects(): seq<Placed> {
    [
      Placed(SELECTOR, TextBytes("run")),
      Placed(CLASS_NAME, TextBytes("Foo")),
      Placed(FOO, ObjectBytes(1, [0, 0, 0, 0, 0, 0, CLASS_NAME])),
      Placed(FOO_CLASS, ObjectBytes(1, [0, 0, 0, 0, 0, FOO])),
      Placed(BINDING, ObjectBytes(1, [NIL_OBJECT, FOO_CLASS])),
      Placed(RUN, ObjectBytes(24, [TWO_LITERALS, SELECTOR, BINDING])),
      Placed(BLOCK, ObjectBytes(24, [TWO_LITERALS, NIL_OBJECT, RUN])),
      Placed(INNER_BLOCK, ObjectBytes(24, [TWO_LITERALS, NIL_OBJECT, BLOCK]))
    ]
  }

  function NestedHeap(): Memory {
    WriteAll(NestedObjects())
  }

  lemma ObjectsAscend()
    ensures Ascending(NestedObjects())
  {
    hide EncodeByteObject, ObjectBytes;
  }

  lemma NestedObject(i: nat, format: nat, fields: seq<nat>)
    requires i < 8 && format < 32 && |fields| < 255 && forall k | 0 <= k < |fields| :: fields[k] <= U64_MAX
    requires NestedObjects()[i].bytes == ObjectBytes(format, fields) && IsHeapObject(NestedObjects()[i].addr)
    ensures var m, oop := NestedHeap(), NestedObjects()[i].addr;
      && FormatOf(m, oop) == Some(format) && NumSlots(m, oop) == Some(|fields|)
      && forall k | 0 <= k < |fields| :: LiteralField(m, oop, k) == Some(fields[k])
  {
    ObjectsAscend();
    AllArePlaced(NestedObjects());
    hide WriteAll, PlacedAt, NestedObjects, ObjectBytes;
    FieldsAreRead(NestedHeap(), NestedObjects()[i].addr, format, fields);
  }

  lemma NestedText(i: nat, s: string)
    requires i < 8 && IsPrintable(s) && 1 <= |s| <= 512
    requires NestedObjects()[i].bytes == TextBytes(s) && IsHeapObject(NestedObjects()[i].addr)
    ensures var m, oop := NestedHeap(), NestedObjects()[i].addr;
      ReadByteObject(m, oop) == Some(s) && IsWordsOrBytes(m, oop)
  {
    ObjectsAscend();
    AllArePlaced(NestedObjects());
    hide WriteAll, PlacedAt, NestedObjects, EncodeByteObject, ReadByteObject;
    ByteObjectRoundTrip(NestedHeap(), NestedObjects()[i].addr, s, [0, 0, 0, 0, 0, 0], 0);
    ByteObjectShape(NestedHeap(), NestedObjects()[i].addr);
  }

  /** A compiled method of two literals, as it is read. */
  predicate IsCodeOf(m: Memory, oop: nat, first: nat, last: nat) {
    && FormatOf(m, oop) == Some(24)
    && LiteralField(m, oop, 0) == Some(TWO_LITERALS)
    && LiteralField(m, oop, 1) == Some(first) && LiteralField(m, oop, 2) == Some(last)
  }

  predicate IsPointersOf(m: Memory, oop: nat, fields: seq<nat>) {
    && FormatOf(m, oop) == Some(1) && NumSlots(m, oop) == Some(|fields|)
    && forall k | 0 <= k < |fields| :: LiteralField(m, oop, k) == Some(fields[k])
  }

  predicate IsTextOf(m: Memory, oop: nat, s: string) {
    ReadByteObject(m, oop) == Some(s) && IsWordsOrBytes(m, oop)
  }

  /** The eight objects, as they are read. */
  predicate HoldsNestedObjects(m: Memory) {
    && IsTextOf(m, SELECTOR, "run") && IsTextOf(m, CLASS_NAME, "Foo")
    && IsPointersOf(m, FOO, [0, 0, 0, 0, 0, 0, CLASS_NAME]) && IsPointersOf(m, FOO_CLASS, [0, 0, 0, 0, 0, FOO])
    && IsPointersOf(m, BINDING, [NIL_OBJECT, FOO_CLASS])
    && IsCodeOf(m, RUN, SELECTOR, BINDING) && IsCodeOf(m, BLOCK, NIL_OBJECT, RUN)
    && IsCodeOf(m, INNER_BLOCK, NIL_OBJECT, BLOCK)
  }

  lemma NestedPointers(i: nat, oop: nat, fields: seq<nat>)
    requires i < 8 && |fields| < 255 && forall k | 0 <= k < |fields| :: fields[k] <= U64_MAX
    requires NestedObjects()[i] == Placed(oop, ObjectBytes(1, fields)) && IsHeapObject(oop)
    ensures IsPointersOf(NestedHeap(), oop, fields)
  {
    NestedObject(i, 1, fields);
    hide NestedHeap, NestedObjects, LiteralField, FormatOf, NumSlots, ObjectBytes;
  }

  lemma NestedCode(i: nat, oop: nat, first: nat, last: nat)
    requires i < 8 && first <= U64_MAX && last <= U64_MAX
    requires NestedObjects()[i] == Placed(oop, ObjectBytes(24, [TWO_LITERALS, first, last])) && IsHeapObject(oop)
    ensures IsCodeOf(NestedHeap(), oop, first, last)
  {
    var fields := [TWO_LITERALS, first, last];
    NestedObject(i, 24, fields);
    hide NestedHeap, NestedObjects, LiteralField, FormatOf, NumSlots, ObjectBytes;
    assert LiteralField(NestedHeap(), oop, 0) == Some(fields[0]);
    assert LiteralField(NestedHeap(), oop, 1) == Some(fields[1]);
    assert LiteralField(NestedHeap(), oop, 2) == Some(fields[2]);
  }

  lemma NestedTextIs(i: nat, oop: nat, s: string)
    requires i < 8 && IsPrintable(s) && 1 <= |s| <= 512
    requires NestedObjects()[i] == Placed(oop, TextBytes(s)) && IsHeapObject(oop)
    ensures IsTextOf(NestedHeap(), oop, s)
  {
    NestedText(i, s);
    hide NestedHeap, NestedObjects, ReadByteObject, IsWordsOrBytes, EncodeByteObject;
  }

  lemma NestedObjectsAreHeld()
    ensures HoldsNestedObjects(NestedHeap())
  {
    hide NestedHeap, ObjectBytes, EncodeByteObject, IsTextOf, IsPointersOf, IsCodeOf;
    NestedTextIs(0, SELECTOR, "run");
    NestedTextIs(1, CLASS_NAME, "Foo");
    NestedPointers(2, FOO, [0, 0, 0, 0, 0, 0, CLASS_NAME]);
    NestedPointers(3, FOO_CLASS, [0, 0, 0, 0, 0, FOO]);
    NestedPointers(4, BINDING, [NIL_OBJECT, FOO_CLASS]);
    NestedCode(5, RUN, SELECTOR, BINDING);
    NestedCode(6, BLOCK, NIL_OBJECT, RUN);
    NestedCode(7, INNER_BLOCK, NIL_OBJECT, BLOCK);
  }

  /** What the decoders ask of a compiled method of two literals. */
  lemma CodeIsRead(m: Memory, oop: nat, first: nat, last: nat)
    requires IsCodeOf(m, oop, first, last)
    ensures IsCompiledMethod(m, oop) && MethodHeaderOf(m, oop) == Some(TWO_LITERALS)
    ensures LiteralCountOfMethod(m, oop, TWO_LITERALS) == Some(2) && LiteralCount(m, Code(oop, TWO_LITERALS)) == 2
    ensures LiteralOfMethod(m, oop, 0) == Some(first) && LiteralOfMethod(m, oop, 1) == Some(last)
    ensures EndsWithLiteral(m, oop, TWO_LITERALS, last)
  {
    hide LiteralField, FormatOf;
  }

  lemma ZeroIsNotText(m: Memory)
    ensures ReadByteObject(m, 0).None?
  {
  }

  lemma FooBinding(m: Memory)
    requires HoldsNestedObjects(m)
    ensures IsMetaclassBinding(m, BINDING, "Foo") && MetaclassHasNoText(m, BINDING)
  {
    ZeroIsNotText(m);
    hide LiteralField, FormatOf, NumSlots, ReadByteObject, IsCodeOf, IsWordsOrBytes;
    assert LooksLikeClassName("Foo");
    hide LooksLikeClassName;
    var class_, metaclass, binding := [0, 0, 0, 0, 0, 0, CLASS_NAME], [0, 0, 0, 0, 0, FOO], [NIL_OBJECT, FOO_CLASS];
    assert LiteralField(m, FOO, 6) == Some(class_[6]);
    assert LiteralField(m, FOO_CLASS, 5) == Some(metaclass[5]);
    assert LiteralField(m, BINDING, 0) == Some(binding[0]) && LiteralField(m, BINDING, 1) == Some(binding[1]);
    forall k: nat | k < 5 ensures LiteralField(m, FOO_CLASS, k) == Some(0) {
      assert metaclass[k] == 0;
    }
  }

  function RunNesting(): seq<Code> {
    [Code(INNER_BLOCK, TWO_LITERALS), Code(BLOCK, TWO_LITERALS), Code(RUN, TWO_LITERALS)]
  }

  lemma RunHasSelector(m: Memory)
    requires HoldsNestedObjects(m)
    ensures HasSelector(m, RUN, TWO_LITERALS, "run") && EndsWithLiteral(m, RUN, TWO_LITERALS, BINDING)
  {
    hide ReadByteObject, IsWordsOrBytes, IsPointersOf, FormatOf, LiteralField;
    CodeIsRead(m, RUN, SELECTOR, BINDING);
    hide IsCodeOf, IsCompiledMethod, LiteralCountOfMethod, LiteralOfMethod, LiteralCount, MethodHeaderOf,
      EndsWithLiteral;
  }

  lemma RunIsNested(m: Memory)
    requires HoldsNestedObjects(m)
    ensures IsNesting(m, RunNesting()) && IsNesting(m, RunNesting()[1..])
    ensures SelectorIsInReach(m, RunNesting())
  {
    hide IsTextOf, IsPointersOf;
    CodeIsRead(m, RUN, SELECTOR, BINDING);
    CodeIsRead(m, BLOCK, NIL_OBJECT, RUN);
    CodeIsRead(m, INNER_BLOCK, NIL_OBJECT, BLOCK);
    hide IsCodeOf, IsCompiledMethod, LiteralCountOfMethod, LiteralOfMethod, LiteralCount, MethodHeaderOf,
      EndsWithLiteral;
    assert IsInside(m, RunNesting()[0], RunNesting()[1]) && IsInside(m, RunNesting()[1], RunNesting()[2]);
  }

  /** Neither nil nor a selector that starts in lower case is taken for a class. */
  lemma QuietLiteral(m: Memory, depth: nat)
    requires IsTextOf(m, SELECTOR, "run") && depth <= MAX_CLASS_NAME_DEPTH
    ensures ClassNameOfLiteral(m, Some(NIL_OBJECT), depth).name.None?
    ensures ClassNameOfLiteral(m, Some(SELECTOR), depth).name.None?
  {
    hide ReadByteObject;
    assert !LooksLikeClassName("run");
    assert !IsCompiledMethod(m, NIL_OBJECT) && !IsCompiledMethod(m, SELECTOR);
  }

  lemma QuietCode(m: Memory, oop: nat, first: nat, last: nat)
    requires IsTextOf(m, SELECTOR, "run") && IsCodeOf(m, oop, first, last)
    requires first == NIL_OBJECT || first == SELECTOR
    ensures OthersNameNoClass(m, Code(oop, TWO_LITERALS))
  {
    hide IsTextOf, IsCodeOf, LiteralOfMethod, LiteralCount, LiteralCountOfMethod, IsCompiledMethod, MethodHeaderOf,
      EndsWithLiteral, ClassNameOfLiteral, IsClassName;
    CodeIsRead(m, oop, first, last);
    forall k: nat, depth: nat | k + 1 < 2 && depth <= MAX_CLASS_NAME_DEPTH
      ensures ClassNameOfLiteral(m, LiteralOfMethod(m, oop, k), depth).name.None?
    {
      QuietLiteral(m, depth);
    }
  }

  lemma OtherLiteralsAreQuiet(m: Memory)
    requires HoldsNestedObjects(m)
    ensures OnlyBindingNames(m, RunNesting(), BINDING, true)
  {
    hide IsTextOf, IsPointersOf, IsCodeOf, OthersNameNoClass, MetaclassHasNoText, IsMetaclassBinding;
    FooBinding(m);
    QuietCode(m, RUN, SELECTOR, BINDING);
    QuietCode(m, BLOCK, NIL_OBJECT, RUN);
    QuietCode(m, INNER_BLOCK, NIL_OBJECT, BLOCK);
  }

  /** The block two deep in Foo class>>run has its selector and no class; the block
      around it has both. */
  lemma InnerBlockLosesClass()
    ensures var m := NestedHeap();
      && MaybeSelectorOfMethod(m, INNER_BLOCK, TWO_LITERALS, 0).name == Some("run")
      && ClassNameOfMethod(m, INNER_BLOCK, TWO_LITERALS, 0).name == None
      && ClassNameOfMethod(m, BLOCK, TWO_LITERALS, 0).name == Some("Foo" + CLASS_SUFFIX)
  {
    var m := NestedHeap();
    NestedObjectsAreHeld();
    RunHasSelector(m);
    RunIsNested(m);
    FooBinding(m);
    OtherLiteralsAreQuiet(m);
    hide NestedHeap, HoldsNestedObjects, OnlyBindingNames, IsMetaclassBinding, MaybeSelectorOfMethod,
      ClassNameOfMethod, BlocksHaveNoSelector, SelectorIsInReach, HasSelector, EndsWithLiteral, IsNesting,
      MetaclassHasNoText;
    WellFormedMethodIsNamed(m, RunNesting(), "run", BINDING, "Foo", true);
    WellFormedMethodIsNamed(m, RunNesting()[1..], "run", BINDING, "Foo", true);
  }
}
