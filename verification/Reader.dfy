/** The two readers as the programs they are: loops that peek at and consume a buffered byte stream.
    PdfParser (core/parser.go) is the dialect File, ContentStreamParser (contentstream/parser.go) the
    dialect Content; where the two differ the methods test the dialect. */
module Reader {
  import opened Bytes
  import opened Objects
  import opened Syntax
  import opened Dictionary

  class Parser {
    const dialect: Dialect
    /** What the buffered reader has not consumed yet. */
    var unread: Bytes

    constructor (dialect: Dialect, input: Bytes)
      ensures this.dialect == dialect && unread == input
    {
      this.dialect := dialect;
      unread := input;
    }

    function Peek(n: nat): Bytes
      reads this
    {
      unread[..Min(n, |unread|)]
    }

    method ReadByte() returns (b: byte)
      requires unread != []
      modifies this
      ensures b == old(unread)[0] && unread == old(unread)[1..]
    {
      b := unread[0];
      unread := unread[1..];
    }

    method Discard(n: nat)
      requires n <= |unread|
      modifies this
      ensures unread == old(unread)[n..]
    {
      unread := unread[n..];
    }

    method SkipSpaces()
      modifies this
      ensures unread == Syntax.SkipSpaces(old(unread))
    {
      while unread != [] && IsWhiteSpace(unread[0])
        invariant Syntax.SkipSpaces(unread) == Syntax.SkipSpaces(old(unread))
        decreases |unread|
      {
        Discard(1);
      }
    }

    /** Reads up to the end of a line; used by readComment and skipComments. */
    method ReadLine()
      modifies this
      ensures unread == DropLine(old(unread))
    {
      while unread != [] && unread[0] != CR && unread[0] != LF
        invariant DropLine(unread) == DropLine(old(unread))
        decreases |unread|
      {
        Discard(1);
      }
    }

    method SkipComments()
      modifies this
      ensures unread == Syntax.SkipComments(old(unread))
      decreases |unread|
    {
      SkipSpaces();
      if unread == [] || unread[0] != PERCENT { return; }
      ReadLine();
      if unread == [] { return; }
      SkipComments();
    }

    method ParseName() returns (r: Parsed<Bytes>)
      modifies this
      ensures r == Syntax.ParseName(dialect, old(unread))
      ensures r.Ok? ==> unread == r.rest
    {
      var name: Bytes := [];
      var nameStarted := false;
      ghost var want := Syntax.ParseName(dialect, unread);
      while unread != []
        invariant want == if nameStarted then NameBody(dialect, name, unread) else Syntax.ParseName(dialect, unread)
        invariant !nameStarted ==> name == []
        decreases |unread|
      {
        var c := unread[0];
        if !nameStarted {
          if c == SLASH {
            nameStarted := true;
            Discard(1);
          } else if c == PERCENT && dialect.File? {
            ReadLine();
            SkipSpaces();
          } else {
            return Fail(Malformed);
          }
        } else if EndsName(c) {
          break;
        } else if c == HASH {
          if |unread| < 3 { return Fail(Eof); }
          if IsHexDigit(unread[1]) && IsHexDigit(unread[2]) {
            name := name + [16 * HexValue(unread[1]) + HexValue(unread[2])];
            Discard(3);
          } else if dialect.File? {
            name := name + [HASH];
            Discard(1);
          } else {
            return Fail(Malformed);
          }
        } else {
          name := name + (if dialect.File? then [c] else Utf8(c));
          Discard(1);
        }
      }
      return Ok(name, unread);
    }

    method ParseString() returns (r: Parsed<Bytes>)
      requires unread != []
      modifies this
      ensures r == StringBody([], 1, old(unread)[1..])
      ensures r.Ok? ==> unread == r.rest
    {
      Discard(1);
      var bytes: Bytes := [];
      var count := 1;
      ghost var want := StringBody([], 1, unread);
      while true
        invariant count >= 1 && StringBody(bytes, count, unread) == want
        decreases |unread|
      {
        if unread == [] { return Fail(Eof); }
        if unread[0] == BACKSLASH {
          if |unread| < 2 { return Fail(Eof); }
          if IsOctalDigit(unread[1]) {
            if |unread| < 4 { return Fail(Eof); }
            var n := OctalRun(unread[2..4]);
            bytes := bytes + [OctalValue(unread[1..2 + n]) % 256];
            Discard(2 + n);
          } else {
            bytes := bytes + Unescaped(unread[1]);
            Discard(2);
          }
          continue;
        } else if unread[0] == LPAREN {
          count := count + 1;
        } else if unread[0] == RPAREN {
          count := count - 1;
          if count == 0 {
            Discard(1);
            break;
          }
        }
        var b := ReadByte();
        bytes := bytes + [b];
      }
      return Ok(bytes, unread);
    }

    method ParseHexString() returns (r: Parsed<Bytes>)
      requires unread != []
      modifies this
      ensures r == HexBody(dialect, [], old(unread)[1..])
      ensures r.Ok? ==> unread == r.rest
    {
      Discard(1);
      var digits: Bytes := [];
      ghost var want := HexBody(dialect, [], unread);
      while true
        invariant HexBody(dialect, digits, unread) == want
        decreases |unread|
      {
        if unread == [] { return Fail(Eof); }
        if unread[0] == GREATER { break; }
        var b := ReadByte();
        if (if dialect.File? then !IsWhiteSpace(b) else IsHexDigit(b)) {
          digits := digits + [b];
        }
      }
      Discard(1);
      if |digits| % 2 == 1 {
        digits := digits + [0x30];
      }
      return Ok(HexDecode(digits), unread);
    }

    /** ParseNumber of core/utils.go. */
    method ParseNumber() returns (r: Parsed<Obj>)
      modifies this
      ensures r == Syntax.ParseNumber(old(unread))
      ensures r.Ok? ==> unread == r.rest
    {
      var isFloat, allowSigns := false, true;
      var text: Bytes := [];
      ghost var want := ScanNumber([], false, true, unread);
      while unread != []
        invariant ScanNumber(text, isFloat, allowSigns, unread) == want
        decreases |unread|
      {
        var c := unread[0];
        if allowSigns && (c == MINUS || c == PLUS) {
          allowSigns := false;
        } else if IsDecimalDigit(c) {
        } else if c == DOT {
          isFloat := true;
        } else if c == 0x65 || c == 0x45 {
          isFloat := true;
          allowSigns := true;
        } else {
          break;
        }
        var b := ReadByte();
        text := text + [b];
      }
      return Ok(if isFloat then Float(text) else Int(IntegerValue(text)), unread);
    }

    /** parseReference on what ReadBytes('R') returns. */
    method ParseReference() returns (r: Parsed<Obj>)
      modifies this
      ensures r == ReadReference(old(unread))
      ensures r.Ok? ==> unread == r.rest
    {
      var n := ThroughR(unread);
      var read := unread[..n];
      Discard(n);
      match MatchRef(read)
      case None => return Fail(Malformed);
      case Some(p) => return Ok(Ref(Atoi(p.num), Atoi(p.gen)), unread);
    }

    method ParseFileWord() returns (r: Parsed<Obj>)
      requires unread != []
      modifies this
      ensures r == FileWord(old(unread))
      ensures r.Ok? ==> unread == r.rest
    {
      var k := Keyword(unread);
      if k.Some? {
        Discard(k.value.1);
        return Ok(k.value.0, unread);
      }
      var ahead := Peek(PEEK);
      if MatchRef(ahead).Some? {
        r := ParseReference();
      } else if LooksNumeric(ahead) {
        r := ParseNumber();
      } else {
        r := Fail(Malformed);
      }
    }

    method ParseOperand() returns (r: Parsed<Bytes>)
      modifies this
      ensures r == OperandBody([], old(unread))
      ensures r.Ok? ==> unread == r.rest
    {
      var bytes: Bytes := [];
      ghost var want := OperandBody([], unread);
      while true
        invariant OperandBody(bytes, unread) == want
        decreases |unread|
      {
        if unread == [] { return Fail(Eof); }
        if IsDelimiter(unread[0]) || IsWhiteSpace(unread[0]) { break; }
        var b := ReadByte();
        bytes := bytes + [b];
      }
      return Ok(bytes, unread);
    }

    method ParseContentWord() returns (r: Parsed<Token>)
      requires |unread| >= 2
      modifies this
      ensures r == ContentWord(old(unread))
      ensures r.Ok? ==> unread == r.rest
    {
      if IsFloatDigit(unread[0]) || (unread[0] == MINUS && IsFloatDigit(unread[1])) {
        var n := ParseNumber();
        return Plain(n);
      }
      var k := Keyword(unread);
      if k.Some? {
        Discard(k.value.1);
        return Ok(Token(k.value.0, false), unread);
      }
      var word := ParseOperand();
      match word
      case Fail(why) => return Fail(why);
      case Hang => return Hang;
      case Ok(w, _) =>
        if w == [] { return Fail(Malformed); }
        return Ok(Token(Str(w, false), true), unread);
    }

    method ParseObject() returns (r: Parsed<Token>)
      modifies this
      ensures r == Syntax.ParseObject(dialect, old(unread))
      ensures r.Ok? ==> unread == r.rest
      decreases |unread|, 2
    {
      SkipSpaces();
      r := ParseHere();
    }

    /** The loop of parseObject: comments are passed over until an object starts. */
    method ParseHere() returns (r: Parsed<Token>)
      modifies this
      ensures r == ParseAt(dialect, old(unread))
      ensures r.Ok? ==> unread == r.rest
      decreases |unread|, 1
    {
      ghost var want := ParseAt(dialect, unread);
      while |unread| >= Needed(dialect) && unread[0] == PERCENT
        invariant ParseAt(dialect, unread) == want && |unread| <= |old(unread)|
        decreases |unread|
      {
        if dialect.File? {
          ReadLine();
          SkipSpaces();
        } else {
          SkipComments();
        }
      }
      if |unread| < Needed(dialect) { return Fail(Eof); }
      var c := unread[0];
      if c == SLASH {
        var n := ParseName();
        r := Plain(AsName(n));
      } else if c == LPAREN {
        var s := ParseString();
        r := Plain(AsStr(s, false));
      } else if c == LBRACKET {
        var a := ParseArray();
        r := Plain(a);
      } else if c == LESS && |unread| >= 2 && unread[1] == LESS {
        var m := ParseDict();
        r := Plain(m);
      } else if c == LESS {
        var s := ParseHexString();
        r := Plain(AsStr(s, true));
      } else if dialect.File? {
        var w := ParseFileWord();
        r := Plain(w);
      } else {
        r := ParseContentWord();
      }
    }

    method ParseArray() returns (r: Parsed<Obj>)
      requires unread != []
      modifies this
      ensures r == ParseElems(dialect, [], old(unread)[1..])
      ensures r.Ok? ==> unread == r.rest
      decreases |unread|, 0
    {
      Discard(1);
      var vec: seq<Obj> := [];
      ghost var want := ParseElems(dialect, [], unread);
      while true
        invariant |unread| < |old(unread)|
        invariant ParseElems(dialect, vec, unread) == want
        decreases |unread|
      {
        SkipSpaces();
        if unread == [] { return Fail(Eof); }
        if unread[0] == RBRACKET {
          Discard(1);
          break;
        }
        var before := |unread|;
        var obj := ParseHere();
        if obj.Fail? { return Fail(obj.why); }
        if obj.Hang? || |unread| == before { return Hang; }
        vec := vec + [obj.value.obj];
      }
      return Ok(Array(vec), unread);
    }

    method ParseDict() returns (r: Parsed<Obj>)
      requires |unread| >= 2
      modifies this
      ensures r == ParseEntries(dialect, [], old(unread)[2..])
      ensures r.Ok? ==> unread == r.rest
      decreases |unread|, 0
    {
      Discard(2);
      var dict := new PdfObjectDictionary();
      ghost var want := ParseEntries(dialect, [], unread);
      while true
        invariant |unread| < |old(unread)|
        invariant fresh(dict) && dict.Valid()
        invariant ParseEntries(dialect, dict.Contents(), unread) == want
        decreases |unread|
      {
        SkipSpaces();
        if dialect.File? { SkipComments(); }
        if |unread| < 2 { return Fail(Eof); }
        if unread[0] == GREATER && unread[1] == GREATER {
          Discard(2);
          break;
        }
        var name := ParseName();
        if !name.Ok? { return Fail(name.why); }
        var key := name.value;
        SkipSpaces();
        if EndsInNull(key) {
          if unread == [] { return Fail(Panic); }
          if unread[0] == SLASH {
            dict.Set(key[..|key| - 4], Null);
            continue;
          }
        }
        var val := ParseHere();
        if val.Fail? { return Fail(val.why); }
        if val.Hang? { return Hang; }
        dict.Set(key, val.value.obj);
      }
      var entries := dict.Entries();
      return Ok(Dict(entries), unread);
    }
  }
}
