/** Content streams as lists of operations (contentstream/contentstream.go, contentstream/parser.go):
    writing a list with Bytes and reading it back with Parse. */
module ContentStream {
  import opened Bytes
  import opened Objects
  import opened Syntax
  import opened SyntaxTokens
  import opened SyntaxRoundTrip
  import Reader

  datatype Operation = Operation(params: seq<Obj>, operand: Bytes)

  /** The operator that starts an inline image, whose data has a syntax of its own. */
  const BI: Bytes := [0x42, 0x49]

  // ---- Writing ----

  function WriteParams(ps: seq<Obj>): Bytes {
    if ps == [] then [] else WriteString(ps[0]) + [SPACE] + WriteParams(ps[1..])
  }

  function WriteOperation(op: Operation): Bytes
    requires op.operand != BI
  {
    WriteParams(op.params) + (op.operand + [LF])
  }

  function WriteOperations(ops: seq<Operation>): Bytes
    requires forall op :: op in ops ==> op.operand != BI
  {
    if ops == [] then [] else WriteOperation(ops[0]) + WriteOperations(ops[1..])
  }

  method ToBytes(ops: seq<Operation>) returns (buf: Bytes)
    requires forall op :: op in ops ==> op.operand != BI
    ensures buf == WriteOperations(ops)
  {
    buf := [];
    WholeSlice(ops);
    AppendNothing(WriteOperations(ops));
    for i := 0 to |ops|
      invariant buf + WriteOperations(ops[i..]) == WriteOperations(ops)
    {
      var op := ops[i];
      ghost var before := buf;
      WholeSlice(op.params);
      AppendNothing(WriteParams(op.params));
      for j := 0 to |op.params|
        invariant buf + WriteParams(op.params[j..]) == before + WriteParams(op.params)
      {
        DropDrop(op.params, j, 1);
        ghost var w := WriteString(op.params[j]);
        Assoc(buf, w + [SPACE], WriteParams(op.params[j + 1..]));
        Assoc(buf, w, [SPACE]);
        buf := buf + WriteString(op.params[j]);
        buf := buf + [SPACE];
      }
      AppendNothing(buf);
      Assoc(before, WriteParams(op.params), op.operand + [LF]);
      buf := buf + (op.operand + [LF]);
      DropDrop(ops, i, 1);
      Assoc(before, WriteOperation(op), WriteOperations(ops[i + 1..]));
    }
    AppendNothing(buf);
  }

  // ---- Reading ----

  /** The operations read: all of them, those before an error, or those before an inline image. */
  datatype Operations = All(ops: seq<Operation>) | Until(ops: seq<Operation>, why: Failure) | Image(ops: seq<Operation>)

  /** The loops of Parse: `params` waits for its operator. */
  function ParseFrom(ops: seq<Operation>, params: seq<Obj>, s: Bytes): Operations
    decreases |s|
  {
    NeverHangs(SkipSpaces(s));
    match ParseObject(Content, s)
    case Fail(Eof) => All(ops)
    case Fail(why) => Until(ops, why)
    case Ok(t, rest) =>
      if !t.isOperand then ParseFrom(ops, params + [t.obj], rest)
      else if OperandOf(t) == BI then Image(ops)
      else ParseFrom(ops + [Operation(params, OperandOf(t))], [], rest)
  }

  /** core.GetStringVal of the string object that holds an operator. */
  function OperandOf(t: Token): Bytes {
    if t.obj.Str? then t.obj.val else []
  }

  /** NewContentStreamParser adds a newline so that the last operator does not meet the end. */
  function Parse(content: Bytes): Operations {
    ParseFrom([], [], content + [LF])
  }

  method ParseContent(content: Bytes) returns (r: Operations)
    ensures r == Parse(content)
  {
    var csp := new Reader.Parser(Content, content + [LF]);
    var operations: seq<Operation> := [];
    var params: seq<Obj> := [];
    while true
      invariant fresh(csp) && csp.dialect == Content
      invariant ParseFrom(operations, params, csp.unread) == Parse(content)
      decreases |csp.unread|
    {
      NeverHangs(SkipSpaces(csp.unread));
      var obj := csp.ParseObject();
      if obj.Fail? {
        if obj.why == Eof { return All(operations); }
        return Until(operations, obj.why);
      }
      if obj.value.isOperand {
        if OperandOf(obj.value) == BI { return Image(operations); }
        operations := operations + [Operation(params, OperandOf(obj.value))];
        params := [];
      } else {
        params := params + [obj.value.obj];
      }
    }
  }

  // ---- The reader always goes forward ----

  /** On no bytes at all does the content stream reader loop for ever, unlike the file reader. */
  lemma {:induction false} NeverHangs(s: Bytes)
    ensures !ParseAt(Content, s).Hang?
    decreases |s|, 0
  {
    if |s| < 2 {
    } else if s[0] == PERCENT {
      NeverHangs(SkipComments(s));
    } else if s[0] == LBRACKET {
      ElemsNeverHang([], s[1..]);
    } else if s[0] == LESS && s[1] == LESS {
      EntriesNeverHang([], s[2..]);
    }
  }

  lemma {:induction false} ElemsNeverHang(acc: seq<Obj>, s: Bytes)
    ensures !ParseElems(Content, acc, s).Hang?
    decreases |s|, 1
  {
    var s1 := SkipSpaces(s);
    if s1 != [] && s1[0] != RBRACKET {
      NeverHangs(s1);
      var r := ParseAt(Content, s1);
      if r.Ok? { ElemsNeverHang(acc + [r.value.obj], r.rest); }
    }
  }

  lemma {:induction false} EntriesNeverHang(acc: seq<Entry>, s: Bytes)
    ensures !ParseEntries(Content, acc, s).Hang?
    decreases |s|, 1
  {
    var s1 := SkipSpaces(s);
    var k := ParseName(Content, s1);
    if |s1| >= 2 && !(s1[0] == GREATER && s1[1] == GREATER) && k.Ok? {
      ValueNeverHangs(acc, k.value, SkipSpaces(k.rest));
    }
  }

  lemma {:induction false} ValueNeverHangs(acc: seq<Entry>, key: Bytes, s: Bytes)
    ensures !ParseValue(Content, acc, key, s).Hang?
    decreases |s|, 2
  {
    if s == [] {
    } else if EndsInNull(key) && s[0] == SLASH {
      EntriesNeverHang(Set(acc, key[..|key| - 4], Null), s);
    } else {
      NeverHangs(s);
      var r := ParseAt(Content, s);
      if r.Ok? { EntriesNeverHang(Set(acc, key, r.value.obj), r.rest); }
    }
  }

  // ---- Operators ----

  /** Words of regular characters that do not start a number, and are not a keyword. */
  predicate IsWord(w: Bytes) {
    && w != [] && (forall i :: 0 <= i < |w| ==> !IsDelimiter(w[i]) && !IsWhiteSpace(w[i]))
    && !IsFloatDigit(w[0]) && !(|w| > 1 && w[0] == MINUS && IsFloatDigit(w[1]))
    && !(NULL_WORD <= w) && !(TRUE_WORD <= w) && !(FALSE_WORD <= w)
  }

  /** Words that the reader takes for an operator, but for the start of an inline image. */
  predicate IsOperator(w: Bytes) {
    IsWord(w) && w != BI
  }

  /** The operators of Table A.1 of ISO 32000-1. */
  const ONE_CHARACTER: string := "bBcdfFGghijJKklmMnqQsSvwWy'\""
  const TWO_CHARACTERS: seq<string> :=
    ["b*", "B*", "BI", "BT", "BX", "cm", "CS", "cs", "d0", "d1", "Do", "DP", "EI", "ET"] + MORE_CHARACTERS
  const MORE_CHARACTERS: seq<string> :=
    ["EX", "f*", "gs", "ID", "MP", "re", "RG", "rg", "ri", "SC", "sc", "sh", "W*"]
  /** The operators that start with T. */
  const AFTER_T: string := "*cdDfjJLmrswz"
  const THREE_CHARACTERS: seq<string> := ["BDC", "BMC", "EMC", "SCN", "scn"]

  predicate IsListed(w: string) {
    || (|w| == 1 && w[0] in ONE_CHARACTER)
    || (|w| == 2 && w[0] == 'T' && w[1] in AFTER_T)
    || w in TWO_CHARACTERS || w in THREE_CHARACTERS
  }

  predicate IsLetter(c: char) {
    'A' <= c <= 'Z' || 'a' <= c <= 'z'
  }

  predicate IsTail(c: char) {
    IsLetter(c) || c == '0' || c == '1' || c == '*'
  }

  /** At most three characters, the first a letter or a quote, the rest letters, digits or an asterisk. */
  predicate HasShape(w: string) {
    && 1 <= |w| <= 3 && (IsLetter(w[0]) || w[0] == '\'' || w[0] == '"')
    && (|w| >= 2 ==> IsTail(w[1])) && (|w| == 3 ==> IsTail(w[2]))
  }

  lemma {:induction false} TwoCharacters(w: string)
    requires w in TWO_CHARACTERS
    ensures HasShape(w)
  {
    if w in MORE_CHARACTERS { MoreCharacters(w); }
  }

  lemma {:induction false} MoreCharacters(w: string)
    requires w in MORE_CHARACTERS
    ensures HasShape(w)
  {
  }

  lemma {:induction false} ListedShape(w: string)
    requires IsListed(w)
    ensures HasShape(w)
  {
    if w in TWO_CHARACTERS { TwoCharacters(w); }
  }

  lemma {:induction false} ShapeIsOperator(w: string)
    requires HasShape(w) && w != "BI"
    ensures IsOperator(Ascii(w))
  {
    var bs := Ascii(w);
    assert bs[0] == w[0] as int;
    assert forall i :: 1 <= i < |w| ==> bs[i] == w[i] as int;
    assert |NULL_WORD| == |TRUE_WORD| == 4 && |FALSE_WORD| == 5;
    assert |w| == 2 ==> w[0] != 'B' || w[1] != 'I';
  }

  /** Every operator of the table but BI is read as an operator, in front of any white space. */
  lemma {:induction false} TableOperators(w: string, rest: Bytes)
    requires IsListed(w) && w != "BI" && rest != [] && IsWhiteSpace(rest[0])
    ensures IsOperator(Ascii(w))
    ensures ParseAt(Content, Ascii(w) + rest) == Ok(Token(Str(Ascii(w), false), true), rest)
  {
    ListedShape(w);
    ShapeIsOperator(w);
    OperatorRead(Ascii(w), rest, Ascii(w) + rest);
  }

  lemma {:induction false} OperandRead(acc: Bytes, w: Bytes, rest: Bytes)
    requires (forall i :: 0 <= i < |w| ==> !IsDelimiter(w[i]) && !IsWhiteSpace(w[i]))
    requires rest != [] && IsWhiteSpace(rest[0])
    ensures OperandBody(acc, w + rest) == Ok(acc + w, rest)
    decreases |w|
  {
    if w == [] {
      AppendNothing(acc);
      AppendNothing(rest);
    } else {
      SplitAppend(w, rest, 1);
      assert (w + rest)[0] == w[0];
      OperandRead(acc + [w[0]], w[1..], rest);
      Assoc(acc, [w[0]], w[1..]);
      HeadTail(w);
    }
  }

  /** A word that begins s and ends before white space is in w if s is w and white space. */
  lemma {:induction false} NotThatWord(k: Bytes, w: Bytes, rest: Bytes, s: Bytes)
    requires s == w + rest && rest != [] && IsWhiteSpace(rest[0])
    requires (forall i :: 0 <= i < |k| ==> !IsWhiteSpace(k[i])) && !(k <= w)
    ensures !(k <= s)
  {
    if |k| <= |w| {
      assert s[..|k|] == w[..|k|] != k;
    } else {
      assert s[|w|] == rest[0] != k[|w|];
    }
  }

  lemma {:induction false} OperatorRead(w: Bytes, rest: Bytes, s: Bytes)
    requires IsWord(w) && s == w + rest && rest != [] && IsWhiteSpace(rest[0])
    ensures ParseAt(Content, s) == Ok(Token(Str(w, false), true), rest)
  {
    assert s[0] == w[0];
    assert s[1] == if |w| > 1 then w[1] else rest[0];
    NotThatWord(NULL_WORD, w, rest, s);
    NotThatWord(TRUE_WORD, w, rest, s);
    NotThatWord(FALSE_WORD, w, rest, s);
    assert Keyword(s) == None;
    OperandRead([], w, rest);
    AppendNothing(w);
    assert s[0] != PERCENT && s[0] != SLASH && s[0] != LPAREN && s[0] != LBRACKET && s[0] != LESS;
  }

  // ---- The written text in front of what follows it ----

  function ParamsThen(ps: seq<Obj>, rest: Bytes): Bytes {
    if ps == [] then rest else TextThen(ps[0], [SPACE] + ParamsThen(ps[1..], rest))
  }

  function OperationsThen(ops: seq<Operation>, rest: Bytes): Bytes {
    if ops == [] then rest
    else ParamsThen(ops[0].params, ops[0].operand + ([LF] + OperationsThen(ops[1..], rest)))
  }

  lemma {:induction false} ParamsThenIs(ps: seq<Obj>, rest: Bytes)
    ensures ParamsThen(ps, rest) == WriteParams(ps) + rest
  {
    if ps == [] {
      AppendNothing(rest);
    } else {
      ParamsThenIs(ps[1..], rest);
      TextThenIs(ps[0], [SPACE] + ParamsThen(ps[1..], rest));
      Assoc4(WriteString(ps[0]), [SPACE], WriteParams(ps[1..]), rest);
    }
  }

  lemma {:induction false} OperationsThenIs(ops: seq<Operation>, rest: Bytes)
    requires forall op :: op in ops ==> op.operand != BI
    ensures OperationsThen(ops, rest) == WriteOperations(ops) + rest
  {
    if ops == [] {
      AppendNothing(rest);
    } else {
      OperationsThenIs(ops[1..], rest);
      var w, more := ops[0].operand, WriteOperations(ops[1..]);
      ParamsThenIs(ops[0].params, w + ([LF] + OperationsThen(ops[1..], rest)));
      Assoc(w, [LF], more + rest);
      Assoc(WriteParams(ops[0].params), w + [LF], more + rest);
      Assoc(WriteOperation(ops[0]), more, rest);
    }
  }

  predicate Written(op: Operation) {
    IsOperator(op.operand) && forall p :: p in op.params ==> Valid(p)
  }

  predicate CleanOperation(op: Operation) {
    forall p :: p in op.params ==> Clean(Content, p)
  }

  // ---- Turns of the reading loop ----

  lemma {:induction false} SpaceTurn(ops: seq<Operation>, params: seq<Obj>, c: byte, s: Bytes)
    requires IsWhiteSpace(c)
    ensures ParseFrom(ops, params, [c] + s) == ParseFrom(ops, params, s)
  {
    assert ([c] + s)[0] == c && ([c] + s)[1..] == s;
    assert ParseObject(Content, [c] + s) == ParseObject(Content, s);
  }

  lemma {:induction false} ParamTurn(ops: seq<Operation>, params: seq<Obj>, s: Bytes, o: Obj, rest: Bytes)
    requires s != [] && !IsWhiteSpace(s[0]) && ParseAt(Content, s) == Ok(Token(o, false), rest)
    ensures ParseFrom(ops, params, s) == ParseFrom(ops, params + [o], rest)
  {
    assert ParseObject(Content, s) == Ok(Token(o, false), rest);
  }

  lemma {:induction false} OperatorTurn(ops: seq<Operation>, params: seq<Obj>, w: Bytes, rest: Bytes)
    requires IsOperator(w)
    ensures ParseFrom(ops, params, w + ([LF] + rest)) == ParseFrom(ops + [Operation(params, w)], [], rest)
  {
    var s := w + ([LF] + rest);
    assert s[0] == w[0];
    OperatorRead(w, [LF] + rest, s);
    assert ParseObject(Content, s) == Ok(Token(Str(w, false), true), [LF] + rest);
    SpaceTurn(ops + [Operation(params, w)], [], LF, rest);
  }

  lemma {:induction false} AtEnd(ops: seq<Operation>)
    ensures ParseFrom(ops, [], [LF]) == All(ops)
  {
    assert SkipSpaces([LF]) == [];
    assert ParseObject(Content, [LF]) == Fail(Eof);
  }

  // ---- Clean lists come back ----

  lemma {:induction false} ReadParams(ops: seq<Operation>, params: seq<Obj>, ps: seq<Obj>, w: Bytes, rest: Bytes)
    requires (forall p :: p in ps ==> Valid(p) && Clean(Content, p)) && IsOperator(w)
    ensures ParseFrom(ops, params, ParamsThen(ps, w + ([LF] + rest)))
            == ParseFrom(ops + [Operation(params + ps, w)], [], rest)
    decreases |ps|
  {
    if ps == [] {
      AppendNothing(params);
      OperatorTurn(ops, params, w, rest);
    } else {
      var t := ParamsThen(ps[1..], w + ([LF] + rest));
      var s := TextThen(ps[0], [SPACE] + t);
      ReadClean(Content, ps[0], [SPACE] + t);
      TextStart(ps[0], [SPACE] + t, s);
      ParamTurn(ops, params, s, ps[0], [SPACE] + t);
      SpaceTurn(ops, params + [ps[0]], SPACE, t);
      ReadParams(ops, params + [ps[0]], ps[1..], w, rest);
      Assoc(params, [ps[0]], ps[1..]);
      HeadTail(ps);
    }
  }

  /** Clean operations are read in front of anything. */
  lemma {:induction false} ReadInFront(done: seq<Operation>, ops: seq<Operation>, tail: Bytes)
    requires forall op :: op in ops ==> Written(op) && CleanOperation(op)
    ensures ParseFrom(done, [], OperationsThen(ops, tail)) == ParseFrom(done + ops, [], tail)
    decreases |ops|
  {
    if ops == [] {
      AppendNothing(done);
    } else {
      var op := ops[0];
      assert Written(op) && CleanOperation(op);
      ReadParams(done, [], op.params, op.operand, OperationsThen(ops[1..], tail));
      AppendNothing(op.params);
      ReadInFront(done + [op], ops[1..], tail);
      Assoc(done, [op], ops[1..]);
      HeadTail(ops);
    }
  }

  lemma {:induction false} ReadOperations(done: seq<Operation>, ops: seq<Operation>)
    requires forall op :: op in ops ==> Written(op) && CleanOperation(op)
    ensures ParseFrom(done, [], OperationsThen(ops, [LF])) == All(done + ops)
  {
    ReadInFront(done, ops, [LF]);
    AtEnd(done + ops);
  }

  /** Reading stops at the start of an inline image, with the operations before it. */
  lemma {:induction false} StopsAtImage(ops: seq<Operation>, c: byte, rest: Bytes)
    requires (forall op :: op in ops ==> Written(op) && CleanOperation(op)) && IsWhiteSpace(c)
    ensures ParseFrom([], [], OperationsThen(ops, Ascii("BI") + ([c] + rest))) == Image(ops)
  {
    var tail := Ascii("BI") + ([c] + rest);
    assert Ascii("BI") == BI && tail[0] == 0x42;
    ReadInFront([], ops, tail);
    AppendNothing(ops);
    OperatorRead(BI, [c] + rest, tail);
    assert ParseObject(Content, tail) == Ok(Token(Str(BI, false), true), [c] + rest);
  }

  /** At a delimiter that starts no object reading ends with an error, and the operations before it. */
  lemma {:induction false} StopsAtDelimiter(ops: seq<Operation>, c: byte, b: byte, rest: Bytes)
    requires forall op :: op in ops ==> Written(op) && CleanOperation(op)
    requires c == ')' as int || c == '>' as int || c == ']' as int || c == '{' as int || c == '}' as int
    ensures ParseFrom([], [], OperationsThen(ops, [c, b] + rest)) == Until(ops, Malformed)
  {
    var tail := [c, b] + rest;
    ReadInFront([], ops, tail);
    AppendNothing(ops);
    DelimiterRefused(tail);
  }

  lemma {:induction false} DelimiterRefused(s: Bytes)
    requires |s| >= 2
    requires s[0] == ')' as int || s[0] == '>' as int || s[0] == ']' as int || s[0] == '{' as int || s[0] == '}' as int
    ensures ParseObject(Content, s) == Fail(Malformed)
  {
    assert SkipSpaces(s) == s;
    assert NULL_WORD[0] != s[0] && TRUE_WORD[0] != s[0] && FALSE_WORD[0] != s[0];
    assert Keyword(s) == None;
    assert OperandBody([], s) == Ok([], s);
    assert ParseAt(Content, s) == ContentWord(s);
  }

  // ---- Nothing else comes back ----

  predicate AllCleanOps(ops: seq<Operation>) {
    forall op :: op in ops ==> CleanOperation(op)
  }

  /** Whatever list comes back holds clean objects only. */
  predicate CleanResult(r: Operations) {
    r.All? ==> AllCleanOps(r.ops)
  }

  lemma {:induction false} AddClean(ops: seq<Operation>, params: seq<Obj>, w: Bytes)
    requires AllCleanOps(ops) && AllClean(Content, params)
    ensures AllCleanOps(ops + [Operation(params, w)])
  {
  }

  lemma {:induction false} FailTurn(ops: seq<Operation>, params: seq<Obj>, s: Bytes)
    requires s != [] && !IsWhiteSpace(s[0]) && ParseAt(Content, s).Fail?
    ensures ParseFrom(ops, params, s).All? ==> ParseFrom(ops, params, s).ops == ops
  {
    assert ParseObject(Content, s) == ParseAt(Content, s);
  }

  /** A reference in front of t is read as two integers and the operator R. */
  lemma {:induction false} ReferenceTurn(ops: seq<Operation>, params: seq<Obj>, o: Obj, t: Bytes)
    requires Valid(o) && o.Ref?
    ensures ParseFrom(ops, params, TextThen(o, [SPACE] + t))
            == ParseFrom(ops + [Operation(params + [Int(o.num)] + [Int(o.gen)], [LETTER_R])], [], t)
  {
    var t1 := [SPACE] + t;
    var s := TextThen(o, t1);
    TextStart(o, t1, s);
    ReadUnseen(Content, o, t1);
    ParamTurn(ops, params, s, Int(o.num), RefTail(o.gen, t1));
    var u := FormatInt(o.gen) + ([SPACE, LETTER_R] + t1);
    SpaceTurn(ops, params + [Int(o.num)], SPACE, u);
    GenerationTurn(ops, params + [Int(o.num)], o.gen, t);
  }

  lemma {:induction false} GenerationTurn(ops: seq<Operation>, params: seq<Obj>, gen: int, t: Bytes)
    requires IsInt64(gen)
    ensures ParseFrom(ops, params, FormatInt(gen) + ([SPACE, LETTER_R] + ([SPACE] + t)))
            == ParseFrom(ops + [Operation(params + [Int(gen)], [LETTER_R])], [], t)
  {
    var t1 := [SPACE] + t;
    var u, v := FormatInt(gen) + ([SPACE, LETTER_R] + t1), [LETTER_R] + t1;
    IntegerLook(gen, [SPACE, LETTER_R] + t1);
    ReadGeneration(Content, gen, t1);
    ParamTurn(ops, params, u, Int(gen), [SPACE] + v);
    SpaceTurn(ops, params + [Int(gen)], SPACE, v);
    ReadR(Content, t1);
    RTurn(ops, params + [Int(gen)], v, t1);
    SpaceTurn(ops + [Operation(params + [Int(gen)], [LETTER_R])], [], SPACE, t);
  }

  lemma {:induction false} RTurn(ops: seq<Operation>, params: seq<Obj>, v: Bytes, rest: Bytes)
    requires v == [LETTER_R] + rest && ParseAt(Content, v) == Ok(Token(Str([LETTER_R], false), true), rest)
    ensures ParseFrom(ops, params, v) == ParseFrom(ops + [Operation(params, [LETTER_R])], [], rest)
  {
    assert v[0] == LETTER_R;
    assert ParseObject(Content, v) == ParseAt(Content, v);
  }

  lemma {:induction false} AnyParams(done: seq<Operation>, params: seq<Obj>, ps: seq<Obj>, w: Bytes,
                                     ops: seq<Operation>)
    requires AllCleanOps(done) && AllClean(Content, params) && IsOperator(w)
    requires (forall p :: p in ps ==> Valid(p)) && (forall op :: op in ops ==> Written(op))
    ensures CleanResult(ParseFrom(done, params, ParamsThen(ps, w + ([LF] + OperationsThen(ops, [LF])))))
    decreases |ops|, 1, |ps|
  {
    if ps == [] {
      OperatorTurn(done, params, w, OperationsThen(ops, [LF]));
      AddClean(done, params, w);
      AnyOperations(done + [Operation(params, w)], ops);
    } else {
      var t := ParamsThen(ps[1..], w + ([LF] + OperationsThen(ops, [LF])));
      if ps[0].Ref? {
        var i, j := Int(ps[0].num), Int(ps[0].gen);
        ReferenceTurn(done, params, ps[0], t);
        AllCleanAppend(Content, params, [i]);
        AllCleanAppend(Content, params + [i], [j]);
        AddClean(done, params + [i] + [j], [LETTER_R]);
        AnyParams(done + [Operation(params + [i] + [j], [LETTER_R])], [], ps[1..], w, ops);
      } else {
        var r := AnyParam(done, params, ps[0], t);
        if r.Some? { AnyParams(done, params + [r.value], ps[1..], w, ops); }
      }
    }
  }

  /** What is written for any other object is read as one clean object, or ends the reading. */
  lemma {:induction false} AnyParam(done: seq<Operation>, params: seq<Obj>, o: Obj, t: Bytes)
    returns (read: Option<Obj>)
    requires AllCleanOps(done) && AllClean(Content, params) && Valid(o) && !o.Ref?
    ensures var s := TextThen(o, [SPACE] + t);
            if read.Some? then AllClean(Content, params + [read.value])
                               && ParseFrom(done, params, s) == ParseFrom(done, params + [read.value], t)
            else CleanResult(ParseFrom(done, params, s))
  {
    var s := TextThen(o, [SPACE] + t);
    TextStart(o, [SPACE] + t, s);
    if Clean(Content, o) { ReadClean(Content, o, [SPACE] + t); } else { ReadAny(Content, o, [SPACE] + t); }
    var r := ParseAt(Content, s);
    if r.Ok? {
      var v := r.value.obj;
      ParamTurn(done, params, s, v, [SPACE] + t);
      SpaceTurn(done, params + [v], SPACE, t);
      AllCleanAppend(Content, params, [v]);
      return Some(v);
    }
    FailTurn(done, params, s);
    return None;
  }

  lemma {:induction false} AnyOperations(done: seq<Operation>, ops: seq<Operation>)
    requires AllCleanOps(done) && forall op :: op in ops ==> Written(op)
    ensures CleanResult(ParseFrom(done, [], OperationsThen(ops, [LF])))
    decreases |ops|, 0, 0
  {
    if ops == [] {
      AtEnd(done);
    } else {
      var op := ops[0];
      assert Written(op);
      AnyParams(done, [], op.params, op.operand, ops[1..]);
    }
  }

  // ---- The theorem ----

  /** Every list of operations with proper operators is read back from its written form exactly when its
      parameters are clean: no references, and no dictionary entry mistaken for a null. */
  lemma {:induction false} RoundTripIff(ops: seq<Operation>)
    requires forall op :: op in ops ==> Written(op) && op.operand != BI
    ensures Parse(WriteOperations(ops)) == All(ops) <==> forall op :: op in ops ==> CleanOperation(op)
  {
    OperationsThenIs(ops, [LF]);
    if forall op :: op in ops ==> CleanOperation(op) {
      ReadOperations([], ops);
      AppendNothing(ops);
    } else {
      AnyOperations([], ops);
    }
  }
}
