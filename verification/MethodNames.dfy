/** Selectors and class names decoded from a compiled method.  The heap may be
    cyclic or corrupt: the decoders go at most four levels deep, and their
    contracts bound the objects they visit and the names they can return. */
module MethodNames {
  import opened Wrappers
  import opened TargetMemory
  import opened SpurObjects

  const CLASS_SUFFIX: string := " class"

  /** The outcome of a search, and how many objects it visited (one for each
      call of a decoder and one for each attempt to read a byte object). */
  datatype Search = Search(name: Option<string>, visits: nat)

  // ----- bounds, as recurrences over the depth -----

  function Levels(depth: nat, limit: nat): nat {
    if depth > limit then 0 else limit + 1 - depth
  }

  function SelectorVisits(depth: nat): nat {
    1 + 2 * Levels(depth, MAX_SELECTOR_DEPTH)
  }

  function ClassObjectVisits(depth: nat): nat {
    1 + 8 * Levels(depth, MAX_CLASS_NAME_DEPTH)
  }

  /** `n` times `x`, by repeated addition. */
  function Times(n: nat, x: nat): nat {
    if n == 0 then 0 else x + Times(n - 1, x)
  }

  lemma TimesAtMost(n: nat, k: nat, x: nat)
    requires n <= k
    ensures Times(n, x) <= k * x
  {
    if n == 0 {
    } else {
      TimesAtMost(n - 1, k - 1, x);
      assert k * x == (k - 1) * x + x;
    }
  }

  function LiteralVisits(depth: nat): nat
    decreases Levels(depth, MAX_CLASS_NAME_DEPTH)
  {
    if depth > MAX_CLASS_NAME_DEPTH then 1
    else 2 + 2 * ClassObjectVisits(depth + 1) + MAX_CLASS_OBJECT_SCAN * LiteralVisits(depth + 1)
  }

  function MethodVisits(depth: nat): nat
    decreases Levels(depth, MAX_CLASS_NAME_DEPTH)
  {
    if depth > MAX_CLASS_NAME_DEPTH then 1
    else 1 + MAX_CLASS_LITERAL_SCAN * (MethodVisits(depth + 1) + LiteralVisits(depth + 1))
  }

  function AtMost(n: nat, limit: nat): nat {
    if n < limit then n else limit
  }

  // ----- the shape of a class name -----

  predicate Suffixed(s: string, n: nat) {
    if n == 0 then LooksLikeClassName(s)
    else |s| >= 6 && s[|s| - 6..] == CLASS_SUFFIX && Suffixed(s[..|s| - 6], n - 1)
  }

  /** A class name followed by at most `most` times " class". */
  ghost predicate IsClassName(name: Option<string>, most: nat) {
    name.Some? ==> exists n: nat :: n <= most && Suffixed(name.value, n)
  }

  function AddSuffix(name: string): (s: string)
    ensures forall n: nat :: Suffixed(name, n) ==> Suffixed(s, n + 1)
  {
    var s := name + CLASS_SUFFIX;
    assert s[..|s| - 6] == name && s[|s| - 6..] == CLASS_SUFFIX;
    s
  }

  // ----- selectors -----

  /** The penultimate literal is the selector, or a method dictionary entry naming it. */
  function SelectorOfPenultimate(m: Memory, methodObj: nat, literalCount: nat, visits: nat): (r: Search)
    requires literalCount >= 2
    ensures r.visits <= visits + 1
  {
    var penultimate := LiteralOfMethod(m, methodObj, literalCount - 2);
    if penultimate.None? then Search(None, visits)
    else if IsWordsOrBytes(m, penultimate.value) then
      Search(ReadSelector(m, penultimate.value), visits + 1)
    else if IsPointerObject(m, penultimate.value) then
      var slots := NumSlots(m, penultimate.value);
      if slots.None? || slots.value < 2 then Search(None, visits)
      else
        var methodField := LiteralField(m, penultimate.value, 0);
        var selector := LiteralField(m, penultimate.value, 1);
        if methodField.None? || selector.None? then Search(None, visits)
        else if methodField.value == methodObj && IsWordsOrBytes(m, selector.value) then
          Search(ReadSelector(m, selector.value), visits + 1)
        else Search(None, visits)
    else Search(None, visits)
  }

  function MaybeSelectorOfMethod(m: Memory, methodObj: nat, methodHeader: nat, depth: nat): (r: Search)
    ensures r.visits <= SelectorVisits(depth)
    decreases Levels(depth, MAX_SELECTOR_DEPTH)
  {
    if depth > MAX_SELECTOR_DEPTH || !IsCompiledMethod(m, methodObj) then Search(None, 1)
    else
      var literalCount := LiteralCountOfMethod(m, methodObj, methodHeader);
      if literalCount.None? || literalCount.value < 2 then Search(None, 1)
      else
        var ultimate := LiteralOfMethod(m, methodObj, literalCount.value - 1);
        if ultimate.None? then Search(None, 1)
        else if !IsCompiledMethod(m, ultimate.value) then
          SelectorOfPenultimate(m, methodObj, literalCount.value, 1)
        else
          var nestedHeader := MethodHeaderOf(m, ultimate.value);
          if nestedHeader.None? then Search(None, 1)
          else
            var nested := MaybeSelectorOfMethod(m, ultimate.value, nestedHeader.value, depth + 1);
            if nested.name.Some? then Search(nested.name, 1 + nested.visits)
            else SelectorOfPenultimate(m, methodObj, literalCount.value, 1 + nested.visits)
  }

  // ----- class names -----

  /** The byte object `oop` when it reads as a class name. */
  function ClassNameString(m: Memory, oop: nat): (name: Option<string>)
    ensures IsClassName(name, 0)
  {
    var name := ReadByteObject(m, oop);
    if name.Some? && LooksLikeClassName(name.value) then
      assert Suffixed(name.value, 0);
      name
    else None
  }

  function ClassNameOfMethod(m: Memory, methodObj: nat, methodHeader: nat, depth: nat): (r: Search)
    ensures r.visits <= MethodVisits(depth)
    ensures IsClassName(r.name, Levels(depth + 2, MAX_CLASS_NAME_DEPTH - 1))
    decreases Levels(depth, MAX_CLASS_NAME_DEPTH), 2, 0
  {
    if depth > MAX_CLASS_NAME_DEPTH || !IsCompiledMethod(m, methodObj) then Search(None, 1)
    else
      var literalCount := LiteralCountOfMethod(m, methodObj, methodHeader);
      if literalCount.None? || literalCount.value == 0 then Search(None, 1)
      else
        var n := AtMost(literalCount.value, MAX_CLASS_LITERAL_SCAN);
        var r := ClassNameInLiterals(m, methodObj, literalCount.value - n, n, depth);
        TimesAtMost(n, MAX_CLASS_LITERAL_SCAN, MethodVisits(depth + 1) + LiteralVisits(depth + 1));
        Search(r.name, 1 + r.visits)
  }

  /** The last literal with a class name among the `n` literals from `first` on. */
  function ClassNameInLiterals(m: Memory, methodObj: nat, first: nat, n: nat, depth: nat): (r: Search)
    requires depth <= MAX_CLASS_NAME_DEPTH
    ensures r.visits <= Times(n, MethodVisits(depth + 1) + LiteralVisits(depth + 1))
    ensures IsClassName(r.name, Levels(depth + 2, MAX_CLASS_NAME_DEPTH - 1))
    decreases Levels(depth, MAX_CLASS_NAME_DEPTH), 0, n
  {
    if n == 0 then Search(None, 0)
    else
      var r := ClassNameOfLiteral(m, LiteralOfMethod(m, methodObj, first + n - 1), depth);
      if r.name.Some? then
        r
      else
        var rest := ClassNameInLiterals(m, methodObj, first, n - 1, depth);
        Search(rest.name, r.visits + rest.visits)
  }

  /** The first class name string in the slots other than 5 and 6. */
  function ClassNameInSlots(m: Memory, oop: nat, offset: nat, n: nat): (r: Search)
    requires offset <= n <= MAX_CLASS_OBJECT_SCAN
    ensures r.visits <= if offset <= 5 then MAX_CLASS_OBJECT_SCAN - 2 - offset else MAX_CLASS_OBJECT_SCAN - offset
    ensures IsClassName(r.name, 0)
    decreases n - offset
  {
    if offset == n then Search(None, 0)
    else if offset == 5 || offset == 6 then ClassNameInSlots(m, oop, offset + 1, n)
    else
      var slot := LiteralField(m, oop, offset);
      var r := if slot.Some? then Search(ClassNameString(m, slot.value), 1) else Search(None, 0);
      if r.name.Some? then r
      else
        var rest := ClassNameInSlots(m, oop, offset + 1, n);
        Search(rest.name, r.visits + rest.visits)
  }

  /** Slot 6 of a class is its name; slot 5 of a metaclass is the class it is the class of. */
  function ClassNameFromClassObject(m: Memory, oop: nat, depth: nat): (r: Search)
    ensures r.visits <= ClassObjectVisits(depth)
    ensures IsClassName(r.name, Levels(depth, MAX_CLASS_NAME_DEPTH - 1))
    decreases Levels(depth, MAX_CLASS_NAME_DEPTH), 1, 0
  {
    if depth > MAX_CLASS_NAME_DEPTH || !IsPointerObject(m, oop) then Search(None, 1)
    else
      var slots := NumSlots(m, oop);
      if slots.None? then Search(None, 1)
      else
        var nameSlot := if slots.value > 6 then LiteralField(m, oop, 6) else None;
        var named := if nameSlot.Some? then Search(ClassNameString(m, nameSlot.value), 1) else Search(None, 0);
        if named.name.Some? then Search(named.name, 1 + named.visits)
        else
          var thisClass := if slots.value > 5 then LiteralField(m, oop, 5) else None;
          var ofClass :=
            if thisClass.Some? && thisClass.value != oop
            then ClassNameFromClassObject(m, thisClass.value, depth + 1)
            else Search(None, 0);
          if ofClass.name.Some? then
            Search(Some(AddSuffix(ofClass.name.value)), 1 + named.visits + ofClass.visits)
          else
            var n := AtMost(slots.value, MAX_CLASS_OBJECT_SCAN);
            var inSlots := ClassNameInSlots(m, oop, 0, n);
            Search(inSlots.name, 1 + named.visits + ofClass.visits + inSlots.visits)
  }

  /** A binding keeps its class in the value slot and the class name in the key slot. */
  function ClassNameOfBinding(m: Memory, oop: nat, depth: nat): (r: Search)
    requires depth <= MAX_CLASS_NAME_DEPTH
    ensures r.visits <= 1 + ClassObjectVisits(depth + 1)
    ensures IsClassName(r.name, Levels(depth + 1, MAX_CLASS_NAME_DEPTH - 1))
    decreases Levels(depth, MAX_CLASS_NAME_DEPTH), 0, 0
  {
    var value := LiteralField(m, oop, 1);
    var ofValue := if value.Some? then ClassNameFromClassObject(m, value.value, depth + 1) else Search(None, 0);
    if ofValue.name.Some? then ofValue
    else
      var key := LiteralField(m, oop, 0);
      if key.Some? then Search(ClassNameString(m, key.value), ofValue.visits + 1) else ofValue
  }

  function ClassNameFromMethodLiteral(m: Memory, oop: nat, depth: nat): (r: Search)
    ensures r.visits <= LiteralVisits(depth)
    ensures IsClassName(r.name, Levels(depth + 1, MAX_CLASS_NAME_DEPTH - 1))
    decreases Levels(depth, MAX_CLASS_NAME_DEPTH), 1, 0
  {
    if depth > MAX_CLASS_NAME_DEPTH || oop == NIL_OBJECT || !IsHeapObject(oop) then Search(None, 1)
    else if IsWordsOrBytes(m, oop) then Search(ClassNameString(m, oop), 2)
    else if !IsPointerObject(m, oop) then Search(None, 1)
    else
      var asClass := ClassNameFromClassObject(m, oop, depth + 1);
      if asClass.name.Some? then Search(asClass.name, 1 + asClass.visits)
      else
        var slots := NumSlots(m, oop);
        if slots.None? then Search(None, 1 + asClass.visits)
        else
          var asBinding := if slots.value >= 2 then ClassNameOfBinding(m, oop, depth) else Search(None, 0);
          if asBinding.name.Some? then Search(asBinding.name, 1 + asClass.visits + asBinding.visits)
          else
            var n := AtMost(slots.value, MAX_CLASS_OBJECT_SCAN);
            var inFields := ClassNameInFields(m, oop, 0, n, depth);
            TimesAtMost(n, MAX_CLASS_OBJECT_SCAN, LiteralVisits(depth + 1));
            Search(inFields.name, 1 + asClass.visits + asBinding.visits + inFields.visits)
  }

  function ClassNameOfLiteral(m: Memory, literal: Option<nat>, depth: nat): (r: Search)
    requires depth <= MAX_CLASS_NAME_DEPTH
    ensures r.visits <= MethodVisits(depth + 1) + LiteralVisits(depth + 1)
    ensures IsClassName(r.name, Levels(depth + 2, MAX_CLASS_NAME_DEPTH - 1))
    decreases Levels(depth, MAX_CLASS_NAME_DEPTH), 0, 0
  {
    if literal.None? then Search(None, 0)
    else
      var nestedHeader :=
        if IsCompiledMethod(m, literal.value) then MethodHeaderOf(m, literal.value) else None;
      var nested :=
        if nestedHeader.Some? then ClassNameOfMethod(m, literal.value, nestedHeader.value, depth + 1)
        else Search(None, 0);
      if nested.name.Some? then nested
      else
        var direct := ClassNameFromMethodLiteral(m, literal.value, depth + 1);
        Search(direct.name, nested.visits + direct.visits)
  }

  function ClassNameInFields(m: Memory, oop: nat, offset: nat, n: nat, depth: nat): (r: Search)
    requires depth <= MAX_CLASS_NAME_DEPTH && offset <= n
    ensures r.visits <= Times(n - offset, LiteralVisits(depth + 1))
    ensures IsClassName(r.name, Levels(depth + 1, MAX_CLASS_NAME_DEPTH - 1))
    decreases Levels(depth, MAX_CLASS_NAME_DEPTH), 0, n - offset
  {
    if offset == n then Search(None, 0)
    else
      var field := LiteralField(m, oop, offset);
      var r := if field.Some? then ClassNameFromMethodLiteral(m, field.value, depth + 1) else Search(None, 0);
      if r.name.Some? then r
      else
        var rest := ClassNameInFields(m, oop, offset + 1, n, depth);
        Search(rest.name, r.visits + rest.visits)
  }

  // ----- what a decoded name can be -----

  /** The work of naming one method, for every heap. */
  lemma NamingWorkIsBounded(m: Memory, methodObj: nat, methodHeader: nat)
    ensures ClassNameOfMethod(m, methodObj, methodHeader, 0).visits <= 59365
    ensures MaybeSelectorOfMethod(m, methodObj, methodHeader, 0).visits <= 11
  {
    assert LiteralVisits(4) == 12;
    assert LiteralVisits(3) == 116;
    assert LiteralVisits(2) == 964;
    assert LiteralVisits(1) == 7764;
    assert MethodVisits(4) == 9;
    assert MethodVisits(3) == 85;
    assert MethodVisits(2) == 805;
    assert MethodVisits(1) == 7077;
  }

  /** Every class name decoded for a method is a class name string with at most
      two times " class" after it. */
  lemma DecodedClassNameShape(m: Memory, methodObj: nat, methodHeader: nat)
    requires ClassNameOfMethod(m, methodObj, methodHeader, 0).name.Some?
    ensures var name := ClassNameOfMethod(m, methodObj, methodHeader, 0).name.value;
      Suffixed(name, 0) || Suffixed(name, 1) || Suffixed(name, 2)
  {
    hide ClassNameOfMethod, Suffixed;
    var name := ClassNameOfMethod(m, methodObj, methodHeader, 0).name.value;
    var n: nat :| n <= 2 && Suffixed(name, n);
  }

  lemma {:induction false} SuffixedHasNoArrow(s: string, n: nat, i: nat)
    requires Suffixed(s, n) && i < |s|
    ensures s[i] != '>'
  {
    if n > 0 {
      if i < |s| - 6 {
        SuffixedHasNoArrow(s[..|s| - 6], n - 1, i);
      } else {
        assert s[i] == CLASS_SUFFIX[i - (|s| - 6)];
      }
    }
  }

  /** `class>>selector` determines both parts, although a selector may itself
      contain '>': a class name cannot. */
  lemma QualifiedNameIsInjective(c1: string, n1: nat, s1: string, c2: string, n2: nat, s2: string)
    requires Suffixed(c1, n1) && Suffixed(c2, n2)
    requires c1 + ">>" + s1 == c2 + ">>" + s2
    ensures c1 == c2 && s1 == s2
  {
    var whole := c1 + ">>" + s1;
    if |c1| < |c2| {
      assert whole[|c1|] == '>' && whole[|c1|] == c2[|c1|];
      SuffixedHasNoArrow(c2, n2, |c1|);
    } else if |c2| < |c1| {
      assert whole[|c2|] == '>' && whole[|c2|] == c1[|c2|];
      SuffixedHasNoArrow(c1, n1, |c2|);
    }
    assert c1 == whole[..|c1|] && c2 == whole[..|c1|];
    assert s1 == whole[|c1| + 2..] && s2 == whole[|c1| + 2..];
  }
}
