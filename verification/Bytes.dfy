/** Bytes, byte classes (core/symbols.go) and the decimal and hexadecimal notations shared by
    the printers, parsers and filters. */
module Bytes {

  type byte = b: int | 0 <= b < 256
  type Bytes = seq<byte>

  datatype Option<+T> = None | Some(value: T)

  // ---- core/symbols.go ----

  predicate IsWhiteSpace(c: byte) {
    c == 0x00 || c == 0x09 || c == 0x0A || c == 0x0C || c == 0x0D || c == 0x20
  }

  predicate IsDecimalDigit(c: byte) {
    0x30 <= c <= 0x39
  }

  predicate IsFloatDigit(c: byte) {
    IsDecimalDigit(c) || c == 0x2E
  }

  predicate IsOctalDigit(c: byte) {
    0x30 <= c <= 0x37
  }

  predicate IsPrintable(c: byte) {
    0x21 <= c <= 0x7E
  }

  predicate IsDelimiter(c: byte) {
    || c == 0x28 || c == 0x29 // ( )
    || c == 0x3C || c == 0x3E // < >
    || c == 0x5B || c == 0x5D // [ ]
    || c == 0x7B || c == 0x7D // { }
    || c == 0x2F || c == 0x25 // / %
  }

  // ---- hexadecimal digits (Go's encoding/hex, and the %x and %X verbs) ----

  predicate IsHexDigit(c: byte) {
    IsDecimalDigit(c) || 0x61 <= c <= 0x66 || 0x41 <= c <= 0x46
  }

  function HexValue(c: byte): (v: nat)
    requires IsHexDigit(c)
    ensures v < 16
  {
    if IsDecimalDigit(c) then c - 0x30 else if c >= 0x61 then c - 0x61 + 10 else c - 0x41 + 10
  }

  function LowerHexDigit(v: nat): (c: byte)
    requires v < 16
    ensures IsHexDigit(c) && HexValue(c) == v && !IsWhiteSpace(c)
  {
    if v < 10 then 0x30 + v else 0x61 + v - 10
  }

  function UpperHexDigit(v: nat): (c: byte)
    requires v < 16
    ensures IsHexDigit(c) && HexValue(c) == v && !IsWhiteSpace(c)
  {
    if v < 10 then 0x30 + v else 0x41 + v - 10
  }

  /** Go's hex.DecodeString, whose result on an invalid pair is what was decoded before it. */
  function HexDecode(h: Bytes): Bytes {
    if |h| < 2 || !IsHexDigit(h[0]) || !IsHexDigit(h[1]) then []
    else [16 * HexValue(h[0]) + HexValue(h[1])] + HexDecode(h[2..])
  }

  /** A missing last digit is 0. */
  function EvenHex(h: Bytes): Bytes {
    if |h| % 2 == 1 then h + [0x30] else h
  }

  predicate IsHexOrSpace(t: Bytes) {
    forall i :: 0 <= i < |t| ==> IsHexDigit(t[i]) || IsWhiteSpace(t[i])
  }

  /** A text without its white space. */
  function Strip(t: Bytes): Bytes {
    if t == [] then []
    else if IsWhiteSpace(t[0]) then Strip(t[1..])
    else [t[0]] + Strip(t[1..])
  }

  /** The bytes of a text in ASCII. */
  function Ascii(w: string): (bs: Bytes)
    ensures |bs| == |w|
  {
    seq(|w|, i requires 0 <= i < |w| => if w[i] as int < 256 then w[i] as int else 0x3F)
  }

  // ---- decimal notation (Go's strconv.FormatInt and the %d verb) ----

  function Digits(n: nat): (s: Bytes)
    ensures |s| > 0
    ensures forall i :: 0 <= i < |s| ==> IsDecimalDigit(s[i])
  {
    if n < 10 then [0x30 + n] else Digits(n / 10) + [0x30 + n % 10]
  }

  predicate AllDigits(s: Bytes) {
    forall i :: 0 <= i < |s| ==> IsDecimalDigit(s[i])
  }

  /** The number a run of decimal digits stands for. */
  function DecimalValue(s: Bytes): nat
    requires AllDigits(s)
  {
    if s == [] then 0 else 10 * DecimalValue(s[..|s| - 1]) + (s[|s| - 1] - 0x30)
  }

  lemma {:induction false} DecimalValueOfDigits(n: nat)
    ensures DecimalValue(Digits(n)) == n
  {
    var s := Digits(n);
    if n < 10 {
      assert s[..0] == [];
    } else {
      assert s[..|s| - 1] == Digits(n / 10);
      DecimalValueOfDigits(n / 10);
    }
  }

  function Min(a: int, b: int): int {
    if a <= b then a else b
  }

  function Repeat<T>(x: T, n: nat): (s: seq<T>)
    ensures |s| == n && forall i :: 0 <= i < n ==> s[i] == x
  {
    seq(n, i => x)
  }

  // ---- sequence facts used across the proofs ----

  lemma {:induction false} Assoc<T>(a: seq<T>, b: seq<T>, c: seq<T>)
    ensures (a + b) + c == a + (b + c)
  {}

  lemma {:induction false} AppendNothing<T>(a: seq<T>)
    ensures a + [] == a && [] + a == a
  {}

  /** The first k elements, and what follows them, of an append whose left part is at least that long. */
  lemma {:induction false} SplitAppend<T>(a: seq<T>, b: seq<T>, k: nat)
    requires k <= |a|
    ensures (a + b)[..k] == a[..k] && (a + b)[k..] == a[k..] + b
  {}

  lemma {:induction false} TakeDrop<T>(a: seq<T>, k: nat)
    requires k <= |a|
    ensures a[..k] + a[k..] == a
  {}

  lemma {:induction false} WholeSlice<T>(a: seq<T>)
    ensures a[..|a|] == a && a[|a|..] == [] && a[0..] == a
  {}

  lemma {:induction false} HeadTail<T>(a: seq<T>)
    requires a != []
    ensures a == [a[0]] + a[1..]
  {}

  lemma {:induction false} DropDrop<T>(a: seq<T>, j: nat, k: nat)
    requires j + k <= |a|
    ensures a[j..][k..] == a[j + k..] && a[j..][..k] == a[j..j + k]
  {}
}
