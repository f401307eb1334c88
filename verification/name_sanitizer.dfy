/**
 The module-name sanitiser `cleanModuleName` of the `modulemaker:make` command.

 The source runs a six-stage pipeline: trim, turn the separators `- _ . : !`
 into spaces, turn every remaining non-`[a-zA-Z]` byte into a space, `ucwords`,
 delete the spaces, `ucfirst`. Each stage is modelled as its own function.
 `PascalCase` is an independent one-pass reference: keep the ASCII letters in
 order and capitalise exactly those that start a word. `CleanModuleName` is
 proved equal to it, and every property below is derived from that equality.
 */
module NameSanitizer {
  import opened PhpString

  /** The characters the first `str_replace` turns into spaces. */
  predicate IsSeparator(c: char) { c == '-' || c == '_' || c == '.' || c == ':' || c == '!' }

  /** The default delimiter set of `ucwords`: space, tab, carriage return, newline, form feed, vertical tab. */
  predicate IsWordDelimiter(c: char)
  {
    c == ' ' || c == '\t' || c == '\r' || c == '\n' || c == 12 as char || c == 11 as char
  }

  /** `str_replace(['-', '_', '.', ':', '!'], ' ', s)`. */
  function ReplaceSeparators(s: string): (r: string)
    ensures |r| == |s|
    ensures forall i :: 0 <= i < |s| ==> r[i] == if IsSeparator(s[i]) then ' ' else s[i]
  {
    if s == [] then [] else [if IsSeparator(s[0]) then ' ' else s[0]] + ReplaceSeparators(s[1..])
  }

  /** `preg_replace('/[^a-zA-Z]/', ' ', s)`. */
  function ReplaceNonLetters(s: string): (r: string)
    ensures |r| == |s|
    ensures forall i :: 0 <= i < |s| ==> r[i] == if IsAsciiLetter(s[i]) then s[i] else ' '
  {
    if s == [] then [] else [if IsAsciiLetter(s[0]) then s[0] else ' '] + ReplaceNonLetters(s[1..])
  }

  /** `ucwords` on the rest of a string; `atWordStart` says whether the previous character was a delimiter. */
  function UcWordsFrom(s: string, atWordStart: bool): (r: string)
    ensures |r| == |s|
    ensures forall i :: 0 <= i < |s| ==>
              r[i] == if (if i == 0 then atWordStart else IsWordDelimiter(s[i - 1])) then ToUpper(s[i]) else s[i]
  {
    if s == [] then []
    else [if atWordStart then ToUpper(s[0]) else s[0]] + UcWordsFrom(s[1..], IsWordDelimiter(s[0]))
  }

  /** `ucwords`: the first character and every character after a delimiter are upper-cased. */
  function UcWords(s: string): (r: string)
    ensures |r| == |s|
    ensures forall i :: 0 <= i < |s| ==>
              r[i] == if i == 0 || IsWordDelimiter(s[i - 1]) then ToUpper(s[i]) else s[i]
  {
    UcWordsFrom(s, true)
  }

  /** `str_replace(' ', '', s)`. */
  function RemoveSpaces(s: string): (r: string)
    ensures forall i :: 0 <= i < |r| ==> r[i] != ' '
    ensures |r| <= |s|
    ensures multiset(r) == multiset(s)[' ' := 0]
  {
    if s == [] then []
    else
      assert multiset(s) == multiset{s[0]} + multiset(s[1..]) by { assert s == [s[0]] + s[1..]; }
      (if s[0] == ' ' then [] else [s[0]]) + RemoveSpaces(s[1..])
  }

  /**
   `str_replace(' ', '', s)` works character by character and keeps the order:
   a single character is dropped exactly when it is a space, and the result for
   a concatenation is the concatenation of the results. Together these fix
   `RemoveSpaces` on every string.
   */
  lemma {:induction false} RemoveSpacesKeepsOrder(a: string, b: string, c: char)
    ensures RemoveSpaces([c]) == if c == ' ' then [] else [c]
    ensures RemoveSpaces(a + b) == RemoveSpaces(a) + RemoveSpaces(b)
  {
    assert RemoveSpaces([c]) == if c == ' ' then [] else [c] by {
      assert [c][1..] == [];
    }
    if a == [] {
      assert a + b == b;
    } else {
      var head := if a[0] == ' ' then [] else [a[0]];
      assert RemoveSpaces(a + b) == head + RemoveSpaces(a[1..] + b) by {
        assert (a + b)[0] == a[0];
        assert (a + b)[1..] == a[1..] + b;
      }
      assert RemoveSpaces(a[1..] + b) == RemoveSpaces(a[1..]) + RemoveSpaces(b) by {
        RemoveSpacesKeepsOrder(a[1..], b, c);
      }
      Associate(head, RemoveSpaces(a[1..]), RemoveSpaces(b));
    }
  }

  /** `ucfirst`. */
  function UcFirst(s: string): (r: string)
    ensures |r| == |s|
    ensures r != [] ==> r[0] == ToUpper(s[0]) && r[1..] == s[1..]
  {
    if s == [] then [] else [ToUpper(s[0])] + s[1..]
  }

  /** The number of ASCII letters in `s`. */
  function CountLetters(s: string): nat
  {
    if s == [] then 0 else (if IsAsciiLetter(s[0]) then 1 else 0) + CountLetters(s[1..])
  }

  /** The ASCII letters of `s`, in order and unchanged. */
  function Letters(s: string): (r: string)
    ensures |r| == CountLetters(s)
    ensures forall i :: 0 <= i < |r| ==> IsAsciiLetter(r[i])
  {
    if s == [] then [] else (if IsAsciiLetter(s[0]) then [s[0]] else []) + Letters(s[1..])
  }

  /** A letter starts a word when it is the first character or follows a non-letter. */
  predicate IsWordStart(s: string, i: int)
    requires 0 <= i < |s|
  {
    IsAsciiLetter(s[i]) && (i == 0 || !IsAsciiLetter(s[i - 1]))
  }

  /**
   Reference definition of the sanitised name: the letters of `s` in order, each
   one upper-cased when it starts a word. `atWordStart` says whether the first
   character of `s` would start a word if it were a letter.
   */
  function PascalCase(s: string, atWordStart: bool): (r: string)
    ensures |r| == CountLetters(s)
    ensures forall i :: 0 <= i < |r| ==> IsAsciiLetter(r[i])
    ensures atWordStart && r != [] ==> IsAsciiUpper(r[0])
  {
    if s == [] then []
    else if IsAsciiLetter(s[0]) then [if atWordStart then ToUpper(s[0]) else s[0]] + PascalCase(s[1..], false)
    else PascalCase(s[1..], true)
  }

  /**
   `cleanModuleName`: the six stages in the order the source applies them. The
   result is the reference `PascalCase` of the raw input: only ASCII letters,
   as many as the input has, and starting with a capital when non-empty.
   */
  function CleanModuleName(value: string): (r: string)
    ensures r == PascalCase(value, true)
    ensures forall i :: 0 <= i < |r| ==> IsAsciiLetter(r[i])
    ensures |r| == CountLetters(value)
    ensures r != [] ==> IsAsciiUpper(r[0])
  {
    var trimmed := Trim(value);
    var separated := ReplaceSeparators(trimmed);
    var spaced := ReplaceNonLetters(separated);
    var capitalised := UcWords(spaced);
    var joined := RemoveSpaces(capitalised);
    PipelineMatchesReference(value);
    UcFirst(joined)
  }

  // ---------------------------------------------------------------------------
  // The pipeline against the reference
  // ---------------------------------------------------------------------------

  /** Two strings with letters in the same places, and the same letters there, have the same `PascalCase`. */
  lemma {:induction false} SameLettersSamePascal(a: string, b: string, atWordStart: bool)
    requires |a| == |b|
    requires forall i :: 0 <= i < |a| ==> (IsAsciiLetter(a[i]) <==> IsAsciiLetter(b[i]))
    requires forall i :: 0 <= i < |a| ==> IsAsciiLetter(a[i]) ==> a[i] == b[i]
    ensures PascalCase(a, atWordStart) == PascalCase(b, atWordStart)
  {
    if a != [] {
      assert IsAsciiLetter(a[0]) <==> IsAsciiLetter(b[0]);
      forall i | 0 <= i < |a[1..]|
        ensures IsAsciiLetter(a[1..][i]) <==> IsAsciiLetter(b[1..][i])
        ensures IsAsciiLetter(a[1..][i]) ==> a[1..][i] == b[1..][i]
      {
        assert a[1..][i] == a[i + 1] && b[1..][i] == b[i + 1];
      }
      SameLettersSamePascal(a[1..], b[1..], !IsAsciiLetter(a[0]));
    }
  }

  /** Leading trimmable characters are not letters, so `ltrim` does not change the reference. */
  lemma {:induction false} TrimLeftPreservesPascal(s: string)
    ensures PascalCase(TrimLeft(s), true) == PascalCase(s, true)
  {
    if s != [] && IsTrimmable(s[0]) {
      TrimLeftPreservesPascal(s[1..]);
    }
  }

  /** A trailing non-letter contributes nothing to the reference. */
  lemma {:induction false} DropTrailingNonLetter(s: string, atWordStart: bool)
    requires s != [] && !IsAsciiLetter(s[|s| - 1])
    ensures PascalCase(s[..|s| - 1], atWordStart) == PascalCase(s, atWordStart)
  {
    if |s| > 1 {
      assert s[..|s| - 1][1..] == s[1..][..|s[1..]| - 1];
      DropTrailingNonLetter(s[1..], !IsAsciiLetter(s[0]));
    }
  }

  /** Trailing trimmable characters are not letters, so `rtrim` does not change the reference. */
  lemma {:induction false} TrimRightPreservesPascal(s: string, atWordStart: bool)
    ensures PascalCase(TrimRight(s), atWordStart) == PascalCase(s, atWordStart)
  {
    if s != [] && IsTrimmable(s[|s| - 1]) {
      TrimRightPreservesPascal(s[..|s| - 1], atWordStart);
      DropTrailingNonLetter(s, atWordStart);
    }
  }

  /** On a string of letters and spaces, `ucwords` followed by deleting the spaces is the reference. */
  lemma {:induction false} UcWordsThenJoin(u: string, atWordStart: bool)
    requires forall i :: 0 <= i < |u| ==> IsAsciiLetter(u[i]) || u[i] == ' '
    ensures RemoveSpaces(UcWordsFrom(u, atWordStart)) == PascalCase(u, atWordStart)
  {
    if u != [] {
      var w := UcWordsFrom(u, atWordStart);
      assert w[0] == if atWordStart then ToUpper(u[0]) else u[0];
      assert w[1..] == UcWordsFrom(u[1..], IsWordDelimiter(u[0]));
      assert forall i :: 0 <= i < |u[1..]| ==> u[1..][i] == u[i + 1];
      UcWordsThenJoin(u[1..], IsWordDelimiter(u[0]));
      assert RemoveSpaces(w) == (if w[0] == ' ' then [] else [w[0]]) + RemoveSpaces(w[1..]);
    }
  }

  /** `trim` removes only non-letters from the ends, so it does not change the reference. */
  lemma {:induction false} TrimPreservesPascal(value: string)
    ensures PascalCase(Trim(value), true) == PascalCase(value, true)
  {
    TrimRightPreservesPascal(TrimLeft(value), true);
    TrimLeftPreservesPascal(value);
  }

  /** Both replacement stages keep every letter in place and put a non-letter wherever there was one. */
  lemma {:induction false} ReplacementsPreservePascal(s: string)
    ensures PascalCase(ReplaceNonLetters(ReplaceSeparators(s)), true) == PascalCase(s, true)
  {
    var separated := ReplaceSeparators(s);
    SameLettersSamePascal(s, separated, true);
    SameLettersSamePascal(separated, ReplaceNonLetters(separated), true);
  }

  /** `ucfirst` leaves a reference result alone: its first letter is already a capital. */
  lemma {:induction false} UcFirstKeepsPascal(s: string)
    ensures UcFirst(PascalCase(s, true)) == PascalCase(s, true)
  {
    var p := PascalCase(s, true);
    if p != [] {
      assert ToUpper(p[0]) == p[0];
      assert UcFirst(p) == [p[0]] + p[1..];
    }
  }

  /** The whole pipeline computes the reference `PascalCase` of the raw input. */
  lemma {:induction false} PipelineMatchesReference(value: string)
    ensures UcFirst(RemoveSpaces(UcWords(ReplaceNonLetters(ReplaceSeparators(Trim(value))))))
            == PascalCase(value, true)
  {
    var trimmed := Trim(value);
    var spaced := ReplaceNonLetters(ReplaceSeparators(trimmed));
    TrimPreservesPascal(value);
    ReplacementsPreservePascal(trimmed);
    UcWordsThenJoin(spaced, true);
    UcFirstKeepsPascal(value);
  }

  // ---------------------------------------------------------------------------
  // Properties of the sanitised name
  // ---------------------------------------------------------------------------

  /** The first `str_replace` is subsumed by the `preg_replace` that follows it: every separator is a non-letter. */
  lemma {:induction false} SeparatorsSubsumedByLetterFilter(s: string)
    ensures ReplaceNonLetters(ReplaceSeparators(s)) == ReplaceNonLetters(s)
  {
  }

  /** `CountLetters` is zero exactly when no character is an ASCII letter. */
  lemma {:induction false} NoLettersIffZeroCount(s: string)
    ensures CountLetters(s) == 0 <==> forall i :: 0 <= i < |s| ==> !IsAsciiLetter(s[i])
  {
    if s != [] {
      NoLettersIffZeroCount(s[1..]);
      assert forall i :: 1 <= i < |s| ==> s[i] == s[1..][i - 1];
    }
  }

  /** The sanitised name is empty exactly when the input has no ASCII letter (empty, blanks, digits, separators). */
  lemma {:induction false} CleanEmptyIffNoLetters(value: string)
    ensures CleanModuleName(value) == [] <==> forall i :: 0 <= i < |value| ==> !IsAsciiLetter(value[i])
  {
    NoLettersIffZeroCount(value);
  }

  /** Up to case, the sanitised name is exactly the input's letters in their original order. */
  lemma {:induction false} PascalLowerIsLettersLower(s: string, atWordStart: bool)
    ensures Lower(PascalCase(s, atWordStart)) == Lower(Letters(s))
  {
    if s != [] {
      PascalLowerIsLettersLower(s[1..], !IsAsciiLetter(s[0]));
      var p := PascalCase(s, atWordStart);
      var l := Letters(s);
      if IsAsciiLetter(s[0]) {
        assert ToLower(p[0]) == ToLower(s[0]);
        assert p[1..] == PascalCase(s[1..], false);
        assert l[1..] == Letters(s[1..]);
        assert Lower(p) == [ToLower(p[0])] + Lower(p[1..]);
        assert Lower(l) == [ToLower(l[0])] + Lower(l[1..]);
      } else {
        assert l == Letters(s[1..]);
      }
    }
  }

  lemma {:induction false} CleanKeepsLettersInOrder(value: string)
    ensures Lower(CleanModuleName(value)) == Lower(Letters(value))
  {
    PascalLowerIsLettersLower(value, true);
  }

  /**
   Letter by letter: the input letter at index `i` lands at position
   `CountLetters(s[..i])` of the reference, upper-cased when it starts a word
   and unchanged otherwise.
   */
  lemma {:induction false} PascalAtLetter(s: string, atWordStart: bool, i: int)
    requires 0 <= i < |s| && IsAsciiLetter(s[i])
    ensures CountLetters(s[..i]) < |PascalCase(s, atWordStart)|
    ensures PascalCase(s, atWordStart)[CountLetters(s[..i])]
            == if (if i == 0 then atWordStart else !IsAsciiLetter(s[i - 1])) then ToUpper(s[i]) else s[i]
  {
    var p := PascalCase(s, atWordStart);
    if i > 0 {
      var t := s[1..];
      var st := !IsAsciiLetter(s[0]);
      PascalAtLetter(t, st, i - 1);
      assert s[..i][1..] == t[..i - 1];
      assert CountLetters(s[..i]) == (if IsAsciiLetter(s[0]) then 1 else 0) + CountLetters(t[..i - 1]);
      assert t[i - 1] == s[i];
      if i - 1 > 0 {
        assert t[i - 2] == s[i - 1];
      }
    } else {
      assert s[..0] == [];
    }
  }

  /**
   A letter's case changes only if it starts a word, where it becomes upper
   case: the letter at input index `i` is output position `CountLetters(value[..i])`.
   */
  lemma {:induction false} CleanCapitalisesWordStarts(value: string, i: int)
    requires 0 <= i < |value| && IsAsciiLetter(value[i])
    ensures CountLetters(value[..i]) < |CleanModuleName(value)|
    ensures CleanModuleName(value)[CountLetters(value[..i])]
            == if IsWordStart(value, i) then ToUpper(value[i]) else value[i]
  {
    PascalAtLetter(value, true, i);
  }

  /** A string of letters is its own reference when no letter is taken to start a word. */
  lemma {:induction false} LettersArePascalFixpoint(t: string)
    requires forall i :: 0 <= i < |t| ==> IsAsciiLetter(t[i])
    ensures PascalCase(t, false) == t
  {
    if t != [] {
      assert forall i :: 0 <= i < |t[1..]| ==> t[1..][i] == t[i + 1];
      LettersArePascalFixpoint(t[1..]);
    }
  }

  /** Sanitising an already sanitised name returns it unchanged. */
  lemma {:induction false} CleanIdempotent(value: string)
    ensures CleanModuleName(CleanModuleName(value)) == CleanModuleName(value)
  {
    var r := CleanModuleName(value);
    if r != [] {
      assert forall i :: 0 <= i < |r[1..]| ==> r[1..][i] == r[i + 1];
      LettersArePascalFixpoint(r[1..]);
      assert ToUpper(r[0]) == r[0];
      assert r == [r[0]] + r[1..];
    }
  }

  /** The reference works piecewise: the second piece starts a word when the first is empty-flagged or ends in a non-letter. */
  lemma {:induction false} PascalAppend(a: string, b: string, atWordStart: bool)
    ensures PascalCase(a + b, atWordStart)
            == PascalCase(a, atWordStart) + PascalCase(b, if a == [] then atWordStart else !IsAsciiLetter(a[|a| - 1]))
  {
    if a == [] {
      assert a + b == b;
    } else {
      var rest := a[1..];
      var st := !IsAsciiLetter(a[0]);
      var next := !IsAsciiLetter(a[|a| - 1]);
      var head := PascalHead(a[0], atWordStart);
      assert PascalCase(a + b, atWordStart) == head + PascalCase(rest + b, st) by {
        PascalStep(a + b, atWordStart);
        assert (a + b)[0] == a[0];
        assert (a + b)[1..] == rest + b;
      }
      assert PascalCase(rest + b, st) == PascalCase(rest, st) + PascalCase(b, next) by {
        PascalAppend(rest, b, st);
        assert rest != [] ==> rest[|rest| - 1] == a[|a| - 1];
      }
      assert PascalCase(a, atWordStart) == head + PascalCase(rest, st) by {
        PascalStep(a, atWordStart);
      }
      Associate(head, PascalCase(rest, st), PascalCase(b, next));
    }
  }

  /**
   Proof aid: concatenation regrouped. Kept as a lemma so that the regrouping is
   proved outside `PascalAppend`, whose context makes the inline assertion too costly.
   */
  lemma {:induction false} Associate(x: string, y: string, z: string)
    ensures x + (y + z) == (x + y) + z
  {
  }

  /** What the reference emits for one character: the letter, capitalised at a word start, or nothing. */
  function PascalHead(c: char, atWordStart: bool): (r: string)
    ensures |r| <= 1
    ensures r != [] <==> IsAsciiLetter(c)
  {
    if IsAsciiLetter(c) then [if atWordStart then ToUpper(c) else c] else []
  }

  /** One step of the reference: the first character's output followed by the rest's. */
  lemma {:induction false} PascalStep(s: string, atWordStart: bool)
    requires s != []
    ensures PascalCase(s, atWordStart) == PascalHead(s[0], atWordStart) + PascalCase(s[1..], !IsAsciiLetter(s[0]))
  {
  }

  lemma {:induction false} PascalWord(w: string)
    requires w != [] && forall i :: 0 <= i < |w| ==> IsAsciiLetter(w[i])
    ensures PascalCase(w, true) == [ToUpper(w[0])] + w[1..]
  {
    LettersArePascalFixpoint(w[1..]);
  }

  /**
   The two worked examples: a hyphen and an underscore each split a word. The
   inputs are parameters fixed by `requires` rather than literals in the
   `ensures`, so that the verifier does not unfold the pipeline on a literal.
   */
  lemma {:induction false} CleanExamples(vendorName: string, moduleName: string)
    requires vendorName == "my-shop" && moduleName == "cool_widget"
    ensures CleanModuleName(vendorName) == "MyShop"
    ensures CleanModuleName(moduleName) == "CoolWidget"
  {
    MyShopExample(vendorName);
    CoolWidgetExample(moduleName);
  }

  /** `my-shop` gives `MyShop`, through the two-word law (parameter for the same reason as above). */
  lemma {:induction false} MyShopExample(vendorName: string)
    requires vendorName == "my-shop"
    ensures PascalCase(vendorName, true) == "MyShop"
  {
    var my, shop := vendorName[..2], vendorName[3..];
    assert vendorName == my + [vendorName[2]] + shop;
    PascalTwoWords(my, vendorName[2], shop);
    assert my == "my" && shop == "shop";
    assert ToUpper('m') == 'M' && ToUpper('s') == 'S';
    assert [ToUpper(my[0])] + my[1..] + [ToUpper(shop[0])] + shop[1..] == "MyShop";
  }

  /** `cool_widget` gives `CoolWidget`, through the two-word law (parameter for the same reason as above). */
  lemma {:induction false} CoolWidgetExample(moduleName: string)
    requires moduleName == "cool_widget"
    ensures PascalCase(moduleName, true) == "CoolWidget"
  {
    var cool, widget := moduleName[..4], moduleName[5..];
    assert moduleName == cool + [moduleName[4]] + widget;
    PascalTwoWords(cool, moduleName[4], widget);
    assert cool == "cool" && widget == "widget";
    assert ToUpper('c') == 'C' && ToUpper('w') == 'W';
    assert [ToUpper(cool[0])] + cool[1..] + [ToUpper(widget[0])] + widget[1..] == "CoolWidget";
  }


  /** Two words joined by one non-letter become both words capitalised and glued together. */
  lemma {:induction false} PascalTwoWords(first: string, sep: char, second: string)
    requires first != [] && forall i :: 0 <= i < |first| ==> IsAsciiLetter(first[i])
    requires second != [] && forall i :: 0 <= i < |second| ==> IsAsciiLetter(second[i])
    requires !IsAsciiLetter(sep)
    ensures PascalCase(first + [sep] + second, true)
            == [ToUpper(first[0])] + first[1..] + [ToUpper(second[0])] + second[1..]
  {
    var head := first + [sep];
    assert PascalCase([sep], !IsAsciiLetter(first[|first| - 1])) == [] by {
      assert [sep][1..] == [];
    }
    assert PascalCase(head, true) == PascalCase(first, true) by {
      PascalAppend(first, [sep], true);
    }
    assert PascalCase(head + second, true) == PascalCase(head, true) + PascalCase(second, true) by {
      PascalAppend(head, second, true);
      assert head[|head| - 1] == sep;
    }
    PascalWord(first);
    PascalWord(second);
  }
}
