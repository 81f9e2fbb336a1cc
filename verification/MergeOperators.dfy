/** The operators that name a resource (Tables 57, 74, 77, 87 and 105 of ISO 32000-1), and what becomes of their
    operations in a merge. */
module MergeOperators {
  import opened Bytes
  import opened Objects
  import opened ContentStream
  import opened Merge
  import opened MergePanics
  import opened MergeKept

  /** The operator takes so many parameters, the first of which names a resource of the kind. */
  predicate Names(w: string, count: nat, kind: Kind) {
    || (w == "Do" && count == 1 && kind == XObject)
    || (w == "Tf" && count == 2 && kind == Font)
    || ((w == "CS" || w == "cs") && count == 1 && kind == ColorSpace)
    || ((w == "SCN" || w == "scn") && count == 1 && kind == Pattern)
    || (w == "sh" && count == 1 && kind == Shading)
    || (w == "gs" && count == 1 && kind == GState)
  }

  /** An operation that names a resource. */
  predicate IsNaming(op: Operation, w: string, name: Bytes, kind: Kind) {
    op.operand == Ascii(w) && op.params != [] && op.params[0] == Name(name) && Names(w, |op.params|, kind)
  }

  lemma {:induction false} WordsAre()
    ensures Ascii("Do") == [0x44, 0x6F] && Ascii("Tf") == [0x54, 0x66] && Ascii("sh") == [0x73, 0x68]
    ensures Ascii("gs") == [0x67, 0x73]
  {
  }

  lemma {:induction false} ColourWordsAre()
    ensures Ascii("CS") == [0x43, 0x53] && Ascii("cs") == [0x63, 0x73]
    ensures Ascii("SCN") == [0x53, 0x43, 0x4E] && Ascii("scn") == [0x73, 0x63, 0x6E]
  {
  }

  lemma {:induction false} NamingUses(op: Operation, w: string, name: Bytes, kind: Kind)
    requires IsNaming(op, w, name, kind)
    ensures Used(op) == Some(Key(kind, name))
  {
    WordsAre();
    ColourWordsAre();
  }

  /** What an operation uses, it names by one of these operators. */
  lemma {:induction false} UsedIsNaming(op: Operation) returns (w: string)
    requires Used(op).Some?
    ensures IsNaming(op, w, Used(op).value.name, Used(op).value.kind)
  {
    WordsAre();
    ColourWordsAre();
    var x := op.operand;
    w := if x == Ascii("Do") then "Do" else if x == Ascii("Tf") then "Tf" else if x == Ascii("CS") then "CS"
         else if x == Ascii("cs") then "cs" else if x == Ascii("SCN") then "SCN" else if x == Ascii("scn") then "scn"
         else if x == Ascii("sh") then "sh" else "gs";
  }

  /** The name stands for a usable object: XObjects, patterns and shadings must load. */
  predicate IsUsable(t: Table, key: Key, obj: int) {
    && key in t && t[key].Object? && t[key].id == obj
    && (key.kind in {XObject, Pattern, Shading} ==> t[key].loads)
  }

  /** Every name that the operation gives to a resource stands for a usable one. */
  ghost predicate NamesUsable(t: Table, op: Operation) {
    forall w, name, kind :: IsNaming(op, w, name, kind) ==> exists obj :: IsUsable(t, Key(kind, name), obj)
  }

  lemma {:induction false} UsableIsBound(t: Table, op: Operation)
    requires NamesUsable(t, op)
    ensures IsBound(t, op)
  {
    if Used(op).Some? {
      var key := Used(op).value;
      var w := UsedIsNaming(op);
      var obj :| IsUsable(t, Key(key.kind, key.name), obj);
    }
  }

  lemma {:induction false} UsableIff(t: Table, key: Key, obj: int)
    ensures IsUsable(t, key, obj) <==> Lookup(t, key) == Some(obj)
  {
  }

  /** An operation that names a usable resource goes in with another name, and nothing else changed; the name stands
      in the page for the same object, as long as the other operations name usable resources too. */
  lemma {:induction false} Linked(source: Table, table: Table, ops: seq<Operation>, i: nat, w: string, name: Bytes,
                                  kind: Kind, obj: int)
    requires forall op :: op in ops ==> NamesUsable(source, op)
    requires i < |ops| && i < |Merged(source, table, ops).ops|
    requires IsNaming(ops[i], w, name, kind) && IsUsable(source, Key(kind, name), obj)
    ensures var r := Merged(source, table, ops);
            exists name' :: && IsUsable(r.table, Key(kind, name'), obj)
                            && r.ops[i] == Operation([Name(name')] + ops[i].params[1..], Ascii(w))
  {
    var r := Merged(source, table, ops);
    forall op | op in ops ensures IsBound(source, op) { UsableIsBound(source, op); }
    MergeLinks(source, table, ops);
    NamingUses(ops[i], w, name, kind);
    UsableIff(source, Key(kind, name), obj);
    var name' := Used(r.ops[i]).value.name;
    UsableIff(r.table, Key(kind, name'), obj);
    assert ops[i].params[0 := Name(name')] == [Name(name')] + ops[i].params[1..];
    assert IsUsable(r.table, Key(kind, name'), obj);
  }

  /** Every other operation goes in as it is, whatever the others are. */
  lemma {:induction false} OtherIsKept(source: Table, table: Table, ops: seq<Operation>, i: nat)
    requires i < |ops| && i < |Merged(source, table, ops).ops|
    requires forall w, name, kind :: !IsNaming(ops[i], w, name, kind)
    ensures Merged(source, table, ops).ops[i] == ops[i]
  {
    if Used(ops[i]).Some? {
      var w := UsedIsNaming(ops[i]);
      assert false;
    }
    BoundSurvives(source, table, ops, i);
  }

  /** The names that are tried: the name itself, and then the name with zeros, or with numbers in place of those it
      ends in, or GS with numbers. */
  lemma {:induction false} NamesTried(kind: Kind, name: Bytes, i: nat)
    ensures Candidate(Key(kind, name), 0) == name
    ensures i > 0 && kind == GState ==> Candidate(Key(kind, name), i) == Ascii("GS") + Digits(i)
    ensures i > 0 && kind != GState && kind != Font ==>
              Candidate(Key(kind, name), i) == Candidate(Key(kind, name), i - 1) + Ascii("0")
  {
    assert Ascii("GS") == GS && Ascii("0") == [ZERO];
    if i > 0 && kind != GState && kind != Font {
      RepeatMore(ZERO, i);
      Assoc(name, Repeat(ZERO, i - 1), [ZERO]);
      if i == 1 { AppendNothing(name); }
    }
  }

  lemma {:induction false} RepeatMore(x: byte, n: nat)
    requires n > 0
    ensures Repeat(x, n) == Repeat(x, n - 1) + [x]
  {
    assert forall i :: 0 <= i < n ==> Repeat(x, n)[i] == x;
  }

  lemma {:induction false} FontNamesTried(name: Bytes, digits: Bytes, i: nat)
    requires name != [] && !IsWhiteSpace(name[0]) && !IsDecimalDigit(name[|name| - 1])
    requires !IsWhiteSpace((name + digits)[|name + digits| - 1]) && AllDigits(digits) && i > 0
    ensures Candidate(Key(Font, name + digits), i) == name + Digits(i)
  {
    var s := name + digits;
    assert s[0] == name[0];
    assert TrimRight(TrimLeft(s)) == s;
    DigitsTrimmed(name, digits);
  }

  lemma {:induction false} DigitsTrimmed(name: Bytes, digits: Bytes)
    requires name != [] && !IsDecimalDigit(name[|name| - 1]) && AllDigits(digits)
    ensures TrimDigits(name + digits) == name
    decreases |digits|
  {
    if digits == [] {
      AppendNothing(name);
    } else {
      var s, n := name + digits, |digits| - 1;
      assert s[|s| - 1] == digits[n] && s[..|s| - 1] == name + digits[..n];
      DigitsTrimmed(name, digits[..n]);
    }
  }

  /** A font name of digits only is given the prefix Font. */
  lemma {:induction false} FontPrefixIs(digits: Bytes, i: nat)
    requires AllDigits(digits) && i > 0
    ensures Candidate(Key(Font, digits), i) == Ascii("Font") + Digits(i)
  {
    assert Ascii("Font") == FONT;
    if digits != [] {
      assert IsDecimalDigit(digits[0]) && IsDecimalDigit(digits[|digits| - 1]);
      assert TrimRight(TrimLeft(digits)) == digits;
    }
    AllTrimmed(digits);
  }

  lemma {:induction false} AllTrimmed(digits: Bytes)
    requires AllDigits(digits)
    ensures TrimDigits(digits) == []
    decreases |digits|
  {
    if digits == [] {
    } else {
      AllTrimmed(digits[..|digits| - 1]);
    }
  }

  /** A resource keeps its name if the page does not use that, or uses it for the same object. Patterns and shadings
      are never the same. */
  lemma {:induction false} KeepsNameIff(t: Table, kind: Kind, name: Bytes, obj: int)
    ensures Choice(t, Key(kind, name), obj) == 0
            <==> (forall o :: !IsUsable(t, Key(kind, name), o))
                 || (IsUsable(t, Key(kind, name), obj) && kind != Pattern && kind != Shading)
  {
    var key := Key(kind, name);
    assert Key(kind, Candidate(key, 0)) == key;
    assert IsChoice(t, key, obj, Choice(t, key, obj));
    if Lookup(t, key).Some? { UsableIff(t, key, Lookup(t, key).value); }
    forall o ensures IsUsable(t, key, o) <==> Lookup(t, key) == Some(o) { UsableIff(t, key, o); }
    assert Stops(t, key, obj, 0) <==> Choice(t, key, obj) == 0;
  }
}
