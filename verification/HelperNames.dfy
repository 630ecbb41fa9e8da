/** Which of the names that decoded headers get are taken for helpers of the JIT, and so
    not for methods, when stacks are stitched and trimmed. */
module HelperNames {
  import opened Wrappers
  import opened SpurObjects
  import opened MethodNames
  import opened CogMethods
  import opened StackTraces
  import opened StackStitching

  /** What the source puts before the selector of a block of no known class. */
  predicate IsJitWord(prefix: string) {
    prefix == "JIT PIC" || prefix == "JIT closed PIC" || prefix == "JIT method" || prefix == "JIT frame"
  }

  /** The class side, once or twice, of a class that is called like a helper. */
  predicate IsClassSideOf(prefix: string, className: string) {
    prefix == className + CLASS_SUFFIX || prefix == className + CLASS_SUFFIX + CLASS_SUFFIX
  }

  /** A class name has no blank, so what follows it starts no earlier than its end. */
  lemma BlankAfterClassName(name: string, rest: string, word: string)
    requires LooksLikeClassName(name) && |word| == 3 && (forall i | 0 <= i < 3 :: IsAlphanumeric(word[i]))
    requires rest != [] && !IsAlphanumeric(rest[0])
    ensures StartsWith(name + rest, word + " ") <==> name == word && rest[0] == ' '
  {
    var whole, front := name + rest, word + " ";
    assert whole[|name|] == rest[0] && front[3] == ' ' && word == front[..3];
    assert |name| < 3 ==> front[|name|] == word[|name|];
    assert |name| > 3 ==> whole[3] == name[3];
    assert |name| >= 3 ==> whole[..3] == name[..3];
    assert StartsWith(whole, front) ==> whole[..4] == front && whole[..3] == front[..3];
    assert StartsWith(whole, front) ==> forall i | 0 <= i < 4 :: whole[i] == front[i];
    if name == word && rest[0] == ' ' {
      assert whole[..4] == front;
    }
  }

  lemma NoBlankInClassName(name: string, word: string)
    requires LooksLikeClassName(name) && |word| == 3
    ensures !IsClassSideOf(name, word)
  {
    assert (word + CLASS_SUFFIX)[3] == ' ' && (word + CLASS_SUFFIX + CLASS_SUFFIX)[3] == ' ';
  }

  lemma ClassSideOnce(name: string, word: string)
    requires LooksLikeClassName(name) && |word| == 3
    ensures IsClassSideOf(name + CLASS_SUFFIX, word) <==> name == word
  {
    if name + CLASS_SUFFIX == word + CLASS_SUFFIX {
      assert name == (name + CLASS_SUFFIX)[..|name|] && word == (word + CLASS_SUFFIX)[..|word|];
    }
    assert |name| > 3 ==> (name + CLASS_SUFFIX)[3] == name[3];
    assert (word + CLASS_SUFFIX + CLASS_SUFFIX)[3] == ' ';
  }

  lemma ClassSideTwice(name: string, word: string)
    requires LooksLikeClassName(name) && |word| == 3
    ensures IsClassSideOf(name + CLASS_SUFFIX + CLASS_SUFFIX, word) <==> name == word
  {
    var whole := name + CLASS_SUFFIX + CLASS_SUFFIX;
    if whole == word + CLASS_SUFFIX + CLASS_SUFFIX {
      assert name == whole[..3] && word == (word + CLASS_SUFFIX + CLASS_SUFFIX)[..3];
    }
    assert |whole| == |name| + 12 && |word + CLASS_SUFFIX| == 9 && |name| > 0;
  }

  lemma SuffixedStart(s: string, n: nat, rest: string, word: string)
    requires Suffixed(s, n) && n <= 2 && |word| == 3 && (forall i | 0 <= i < 3 :: IsAlphanumeric(word[i]))
    requires rest != [] && rest[0] == '>'
    ensures StartsWith(s + rest, word + " ") <==> IsClassSideOf(s, word)
  {
    hide StartsWith;
    if n == 0 {
      BlankAfterClassName(s, rest, word);
      NoBlankInClassName(s, word);
    } else {
      var front := s[..|s| - 6];
      assert s == front + CLASS_SUFFIX;
      if n == 1 {
        BlankAfterClassName(front, CLASS_SUFFIX + rest, word);
        assert s + rest == front + (CLASS_SUFFIX + rest);
        ClassSideOnce(front, word);
      } else {
        assert Suffixed(front, 1);
        var name := front[..|front| - 6];
        assert Suffixed(name, 0);
        assert front == name + CLASS_SUFFIX;
        BlankAfterClassName(name, CLASS_SUFFIX + CLASS_SUFFIX + rest, word);
        assert s + rest == name + (CLASS_SUFFIX + CLASS_SUFFIX + rest);
        ClassSideTwice(name, word);
      }
    }
  }

  lemma JitWordIsHelper(prefix: string, rest: string)
    requires IsJitWord(prefix)
    ensures IsHelperName(prefix + rest)
  {
    assert prefix[..4] == "JIT ";
    assert (prefix + rest)[..4] == "JIT ";
  }

  /** Of the names that a decoded header can get, exactly these are taken for helpers:
      the generic one, those of blocks without a class, and those of the class side of
      a class called Cog or JIT, whose methods stitching and trimming then overlook. */
  lemma HelperNamesExactly(prefix: string, selector: string)
    requires IsPrefix(prefix)
    ensures IsHelperName(GENERIC_NAME)
    ensures IsHelperName(Qualified(prefix, selector))
      <==> IsJitWord(prefix) || IsClassSideOf(prefix, "Cog") || IsClassSideOf(prefix, "JIT")
  {
    assert GENERIC_NAME[..4] == "JIT ";
    var rest := ">>" + selector;
    assert Qualified(prefix, selector) == prefix + rest;
    if IsJitWord(prefix) {
      JitWordIsHelper(prefix, rest);
    } else {
      var n: nat :| n <= 2 && Suffixed(prefix, n);
      SuffixedStart(prefix, n, rest, "Cog");
      SuffixedStart(prefix, n, rest, "JIT");
      assert "Cog" + " " == "Cog " && "JIT" + " " == "JIT ";
    }
  }

  /** A method of the class side of Cog is shown as a Smalltalk frame and is not one. */
  lemma CogClassIsHelper(short: Option<string>)
    ensures IsPrefix("Cog class") && !IsSmalltalkMethod(SmalltalkFrame("Cog class>>run", short))
    ensures LastMethod([SmalltalkFrame("Cog class>>run", short)]) == None
  {
    assert "Cog class"[..3] == "Cog" && "Cog class"[3..] == CLASS_SUFFIX;
    assert Suffixed("Cog", 0);
    assert Suffixed("Cog class", 1);
    assert "Cog class>>run"[..4] == "Cog ";
    assert [SmalltalkFrame("Cog class>>run", short)][..0] == [];
  }

  // ----- boundary frames -----

  lemma Differs(s: string, prefix: string, i: nat)
    requires i < |prefix| && (i < |s| ==> s[i] != prefix[i])
    ensures !StartsWith(s, prefix)
  {
  }

  lemma BehindWord(word: string, rest: string, tail: string)
    ensures StartsWith(word + rest, word + tail) <==> StartsWith(rest, tail)
  {
    if |tail| <= |rest| {
      assert (word + rest)[..|word| + |tail|] == word + rest[..|tail|];
      assert word + rest[..|tail|] == word + tail ==> rest[..|tail|] == tail by {
        assert (word + rest[..|tail|])[|word|..] == rest[..|tail|] && (word + tail)[|word|..] == tail;
      }
    }
  }

  /** No name with a capital is one of the VM's own functions. */
  lemma LowerCaseWords(name: string)
    requires name != [] && 'A' <= name[0] <= 'Z'
    ensures !StartsWith(name, "primitive") && !StartsWith(name, "ceSend") && !StartsWith(name, "ceReturn")
    ensures name != "interpret" && name != "ceCaptureCStackPointers"
  {
    Differs(name, "primitive", 0);
    Differs(name, "ceSend", 0);
    Differs(name, "ceReturn", 0);
    assert "interpret"[0] == 'i' && "ceCaptureCStackPointers"[0] == 'c';
  }

  /** Of the frames named after generated entry points those show the VM in C code whose
      entry point leads there. */
  lemma EntryPointIsBoundary(name: string, short: Option<string>)
    ensures IsBoundary(SmalltalkFrame("Cog " + name, short))
      <==> StartsWith(name, "ce") || StartsWith(name, "methodAbort")
  {
    var whole := "Cog " + name;
    assert "Cog " + "ce" == "Cog ce" && "Cog " + "methodAbort" == "Cog methodAbort";
    BehindWord("Cog ", name, "ce");
    BehindWord("Cog ", name, "methodAbort");
    assert whole[0] == 'C';
    LowerCaseWords(whole);
    hide StartsWith;
  }

  /** A primitive shows the VM in C code exactly if it is in the interpreter or a plugin. */
  lemma PrimitiveIsBoundaryByFile(frame: Frame, rest: string)
    requires frame.name == "primitive" + rest
    ensures IsBoundary(frame) <==> EndsWith(frame.filename, "cointerp.c") || EndsWith(frame.filename, "Plugin.c")
  {
    assert frame.name[..9] == "primitive" && frame.name[0] == 'p';
    Differs(frame.name, "Cog ce", 0);
    Differs(frame.name, "Cog methodAbort", 0);
    Differs(frame.name, "ceSend", 0);
    Differs(frame.name, "ceReturn", 0);
    assert "interpret"[0] == 'i' && "ceCaptureCStackPointers"[0] == 'c';
  }

  /** The interpreter loop and the entry points of sends and returns are boundaries in any file. */
  lemma InterpreterIsBoundary(frame: Frame, rest: string)
    requires frame.name in {"interpret", "ceCaptureCStackPointers", "ceSend" + rest, "ceReturn" + rest}
    ensures IsBoundary(frame)
  {
    assert ("ceSend" + rest)[..6] == "ceSend" && ("ceReturn" + rest)[..8] == "ceReturn";
  }

  lemma {:induction false} StartsWithCapital(s: string, n: nat)
    requires Suffixed(s, n)
    ensures s != [] && 'A' <= s[0] <= 'Z'
  {
    if n > 0 {
      StartsWithCapital(s[..|s| - 6], n - 1);
    }
  }

  lemma CogWords(name: string)
    ensures StartsWith(name, "Cog ce") || StartsWith(name, "Cog methodAbort") ==> StartsWith(name, "Cog ")
  {
    assert "Cog ce"[..4] == "Cog " && "Cog methodAbort"[..4] == "Cog ";
    assert StartsWith(name, "Cog ce") ==> name[..4] == name[..6][..4];
    assert StartsWith(name, "Cog methodAbort") ==> name[..4] == name[..15][..4];
  }

  lemma ClassSideIsNoBoundary(prefix: string, rest: string)
    requires IsClassSideOf(prefix, "Cog")
    ensures !StartsWith(prefix + rest, "Cog ce") && !StartsWith(prefix + rest, "Cog methodAbort")
  {
    assert prefix[4] == CLASS_SUFFIX[1] && prefix[5] == CLASS_SUFFIX[2];
    Differs(prefix + rest, "Cog ce", 5);
    Differs(prefix + rest, "Cog methodAbort", 4);
  }

  /** A decoded method or block, whatever it is called, is never taken for a boundary. */
  lemma DecodedNameIsNoBoundary(prefix: string, selector: string, short: Option<string>)
    requires IsPrefix(prefix)
    ensures !IsBoundary(SmalltalkFrame(Qualified(prefix, selector), short))
  {
    var rest := ">>" + selector;
    var name := prefix + rest;
    assert Qualified(prefix, selector) == name;
    assert rest[0] == '>' && "Cog" + " " == "Cog ";
    if IsJitWord(prefix) {
      assert prefix[0] == 'J';
      Differs(name, "Cog ce", 0);
      Differs(name, "Cog methodAbort", 0);
    } else {
      hide StartsWith, Suffixed, IsClassSideOf, IsJitWord;
      var n: nat :| n <= 2 && Suffixed(prefix, n);
      StartsWithCapital(prefix, n);
      SuffixedStart(prefix, n, rest, "Cog");
      CogWords(name);
      if IsClassSideOf(prefix, "Cog") {
        ClassSideIsNoBoundary(prefix, rest);
      }
    }
    hide StartsWith, Suffixed, IsClassSideOf, IsJitWord;
    LowerCaseWords(name);
  }
}
