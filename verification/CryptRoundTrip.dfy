/** Decryption after encryption gives the objects back. */
module CryptRoundTrip {
  import opened Bytes
  import Objects
  import opened Crypt

  // ---- Direct objects ----

  /** An entry is transformed at some place or left alone. */
  lemma {:induction false} GetTransformed(m: Mode, c: Settings, k: Place, i: nat, sig: bool, es: seq<Entry>, key: Bytes)
    returns (p: Place)
    ensures Get(TransformEntries(m, c, k, i, sig, es), key)
            == (match Get(es, key) case None => None case Some(v) => Some(if Skips(sig, key) then v else Transform(m, c, p, v)))
    decreases es
  {
    p := Under(k, i);
    if es == [] {
    } else {
      var e, rest := TransformEntry(m, c, Under(k, i), sig, es[0]), TransformEntries(m, c, k, i + 1, sig, es[1..]);
      assert ([e] + rest)[0] == e && ([e] + rest)[1..] == rest;
      if es[0].key != key { p := GetTransformed(m, c, k, i + 1, sig, es[1..], key); }
    }
  }

  lemma {:induction false} NameTransformed(m: Mode, c: Settings, k: Place, i: nat, sig: bool, es: seq<Entry>, key: Bytes)
    ensures NameOf(Get(TransformEntries(m, c, k, i, sig, es), key)) == NameOf(Get(es, key))
  {
    var p := GetTransformed(m, c, k, i, sig, es, key);
  }

  lemma {:induction false} CipherBack(c: Settings, f: Bytes, k: Place, b: Bytes)
    requires Inverse(c)
    ensures Cipher(Decrypting, c, f, k, Cipher(Encrypting, c, f, k, b)) == b
  {
  }

  /** Every string of a direct object comes back. */
  lemma {:induction false} TransformBack(c: Settings, k: Place, v: Val)
    requires Inverse(c)
    ensures Transform(Decrypting, c, k, Transform(Encrypting, c, k, v)) == v
    decreases v
  {
    match v
    case Str(b) => CipherBack(c, StringFilter(c), k, b);
    case Array(vs) => AllBack(c, k, 0, vs);
    case Dict(es) =>
      NameTransformed(Encrypting, c, k, 0, IsSig(es), es, TYPE);
      EntriesBack(c, k, 0, IsSig(es), es);
    case _ =>
  }

  lemma {:induction false} AllBack(c: Settings, k: Place, i: nat, vs: seq<Val>)
    requires Inverse(c)
    ensures TransformAll(Decrypting, c, k, i, TransformAll(Encrypting, c, k, i, vs)) == vs
    decreases vs
  {
    if vs == [] {
    } else {
      TransformBack(c, Under(k, i), vs[0]);
      AllBack(c, k, i + 1, vs[1..]);
      var rest := TransformAll(Encrypting, c, k, i + 1, vs[1..]);
      assert ([Transform(Encrypting, c, Under(k, i), vs[0])] + rest)[1..] == rest;
    }
  }

  lemma {:induction false} EntriesBack(c: Settings, k: Place, i: nat, sig: bool, es: seq<Entry>)
    requires Inverse(c)
    ensures TransformEntries(Decrypting, c, k, i, sig, TransformEntries(Encrypting, c, k, i, sig, es)) == es
    decreases es
  {
    if es == [] {
    } else {
      if !Skips(sig, es[0].key) { TransformBack(c, Under(k, i), es[0].value); }
      EntriesBack(c, k, i + 1, sig, es[1..]);
      var rest := TransformEntries(Encrypting, c, k, i + 1, sig, es[1..]);
      assert ([TransformEntry(Encrypting, c, Under(k, i), sig, es[0])] + rest)[1..] == rest;
    }
  }

  lemma {:induction false} PtrsTransformed(m: Mode, c: Settings, k: Place, v: Val)
    ensures Ptrs(Transform(m, c, k, v)) == Ptrs(v)
    decreases v
  {
    match v
    case Array(vs) => PtrsAllTransformed(m, c, k, 0, vs);
    case Dict(es) =>
      NameTransformed(m, c, k, 0, IsSig(es), es, TYPE);
      PtrsEntriesTransformed(m, c, k, 0, IsSig(es), es);
    case _ =>
  }

  lemma {:induction false} PtrsAllTransformed(m: Mode, c: Settings, k: Place, i: nat, vs: seq<Val>)
    ensures PtrsAll(TransformAll(m, c, k, i, vs)) == PtrsAll(vs)
    decreases vs
  {
    if vs == [] {
    } else {
      PtrsTransformed(m, c, Under(k, i), vs[0]);
      PtrsAllTransformed(m, c, k, i + 1, vs[1..]);
      var rest := TransformAll(m, c, k, i + 1, vs[1..]);
      assert ([Transform(m, c, Under(k, i), vs[0])] + rest)[1..] == rest;
    }
  }

  lemma {:induction false} PtrsEntriesTransformed(m: Mode, c: Settings, k: Place, i: nat, sig: bool, es: seq<Entry>)
    ensures PtrsEntries(sig, TransformEntries(m, c, k, i, sig, es)) == PtrsEntries(sig, es)
    decreases es
  {
    if es == [] {
    } else {
      if !Skips(sig, es[0].key) { PtrsTransformed(m, c, Under(k, i), es[0].value); }
      PtrsEntriesTransformed(m, c, k, i + 1, sig, es[1..]);
      var rest := TransformEntries(m, c, k, i + 1, sig, es[1..]);
      assert ([TransformEntry(m, c, Under(k, i), sig, es[0])] + rest)[1..] == rest;
    }
  }

  // ---- The Length entry ----

  lemma {:induction false} GetSet(es: seq<Entry>, key: Bytes, v: Val, k: Bytes)
    ensures Get(Set(es, key, v), k) == if k == key then Some(v) else Get(es, k)
  {
    if es != [] && es[0].key != key {
      GetSet(es[1..], key, v, k);
      assert ([es[0]] + Set(es[1..], key, v))[1..] == Set(es[1..], key, v);
    }
  }

  lemma {:induction false} SetSet(es: seq<Entry>, key: Bytes, v: Val, w: Val)
    ensures Set(Set(es, key, v), key, w) == Set(es, key, w)
  {
    if es != [] && es[0].key != key {
      SetSet(es[1..], key, v, w);
      assert ([es[0]] + Set(es[1..], key, v))[1..] == Set(es[1..], key, v);
    }
  }

  lemma {:induction false} SetTransformed(m: Mode, c: Settings, k: Place, i: nat, sig: bool, es: seq<Entry>, key: Bytes, o: Objects.Obj)
    ensures TransformEntries(m, c, k, i, sig, Set(es, key, Atom(o)))
            == Set(TransformEntries(m, c, k, i, sig, es), key, Atom(o))
    decreases es
  {
    var e := Entry(key, Atom(o));
    assert TransformEntry(m, c, Under(k, i), sig, e) == e;
    if es == [] {
      assert [e][1..] == [];
      assert Set(es, key, Atom(o)) == [e];
    } else {
      var rest := TransformEntries(m, c, k, i + 1, sig, es[1..]);
      assert ([TransformEntry(m, c, Under(k, i), sig, es[0])] + rest)[1..] == rest;
      if es[0].key == key {
        var es' := [e] + es[1..];
        assert es'[0] == e && es'[1..] == es[1..];
        assert TransformEntries(m, c, k, i, sig, es') == [e] + rest;
      } else {
        SetTransformed(m, c, k, i + 1, sig, es[1..], key, o);
        assert ([es[0]] + Set(es[1..], key, Atom(o)))[1..] == Set(es[1..], key, Atom(o));
      }
    }
  }

  /** The pointers of a dictionary whose Length is a number. */
  function OtherPtrs(sig: bool, es: seq<Entry>): set<Id> {
    PtrsEntries(sig, Set(es, LENGTH, Atom(Objects.Int(0))))
  }

  lemma {:induction false} PtrsSet(sig: bool, es: seq<Entry>, n: int)
    ensures PtrsEntries(sig, Set(es, LENGTH, Atom(Objects.Int(n)))) == OtherPtrs(sig, es) <= PtrsEntries(sig, es)
  {
    var a, b := Atom(Objects.Int(n)), Atom(Objects.Int(0));
    assert PtrsEntry(sig, Entry(LENGTH, a)) == {} == PtrsEntry(sig, Entry(LENGTH, b));
    if es == [] {
      assert [Entry(LENGTH, a)][1..] == [] && [Entry(LENGTH, b)][1..] == [];
      assert Set(es, LENGTH, a) == [Entry(LENGTH, a)] && Set(es, LENGTH, b) == [Entry(LENGTH, b)];
    } else {
      if es[0].key == LENGTH {
        var as', bs := [Entry(LENGTH, a)] + es[1..], [Entry(LENGTH, b)] + es[1..];
        assert as'[1..] == es[1..] == bs[1..];
        assert PtrsEntries(sig, as') == PtrsEntries(sig, es[1..]) == PtrsEntries(sig, bs);
      } else {
        PtrsSet(sig, es[1..], n);
        assert ([es[0]] + Set(es[1..], LENGTH, a))[1..] == Set(es[1..], LENGTH, a);
        assert ([es[0]] + Set(es[1..], LENGTH, b))[1..] == Set(es[1..], LENGTH, b);
      }
    }
  }

  // ---- What is decided by names is decided alike ----

  /** The dictionary of an encrypted stream. */
  function Encrypted(c: Settings, k: Place, dict: seq<Entry>, n: int): seq<Entry> {
    Set(TransformEntries(Encrypting, c, k, 0, IsSig(dict), dict), LENGTH, Atom(Objects.Int(n)))
  }

  /** The dictionary with its length put right. */
  function WithLength(dict: seq<Entry>, n: int): seq<Entry> {
    Set(dict, LENGTH, Atom(Objects.Int(n)))
  }

  lemma {:induction false} GetEncrypted(c: Settings, k: Place, dict: seq<Entry>, n: int, key: Bytes) returns (p: Place)
    requires key != LENGTH
    ensures Get(Encrypted(c, k, dict, n), key)
            == (match Get(dict, key) case None => None case Some(v) => Some(if Skips(IsSig(dict), key) then v else Transform(Encrypting, c, p, v)))
  {
    GetSet(TransformEntries(Encrypting, c, k, 0, IsSig(dict), dict), LENGTH, Atom(Objects.Int(n)), key);
    p := GetTransformed(Encrypting, c, k, 0, IsSig(dict), dict, key);
  }

  lemma {:induction false} TypeEncrypted(c: Settings, k: Place, dict: seq<Entry>, n: int)
    ensures IsSig(Encrypted(c, k, dict, n)) == IsSig(dict)
    ensures IsXref(Encrypted(c, k, dict, n)) == IsXref(dict)
  {
    assert TYPE != LENGTH;
    var p := GetEncrypted(c, k, dict, n, TYPE);
  }

  lemma {:induction false} CryptFilterNameEncrypted(c: Settings, k: Place, dict: seq<Entry>, n: int)
    ensures CryptFilterName(c, Encrypted(c, k, dict, n)) == CryptFilterName(c, dict)
  {
    assert DECODE_PARMS != LENGTH;
    var p := GetEncrypted(c, k, dict, n, DECODE_PARMS);
    var parms := Get(dict, DECODE_PARMS);
    if parms.Some? && parms.value.Dict? {
      var es := parms.value.entries;
      NameTransformed(Encrypting, c, p, 0, IsSig(es), es, NAME);
    }
  }

  lemma {:induction false} HasCryptFilterEncrypted(c: Settings, s: Store, done: set<Id>, k: Place, dict: seq<Entry>, n: int)
    ensures HasCryptFilter(Mixed(Encrypting, c, s, done), Encrypted(c, k, dict, n)) == HasCryptFilter(s, dict)
  {
    assert FILTER != LENGTH && FILTER[0] != LENGTH[0];
    var p := GetEncrypted(c, k, dict, n, FILTER);
    var f := Get(dict, FILTER);
    if f.Some? && f.value.Array? && f.value.elems != [] {
      var v := f.value.elems[0];
      TraceMixed(Encrypting, c, s, done, v, v, p, TRACE_MAX_DEPTH);
      TraceMixed(Encrypting, c, s, done, v, Transform(Encrypting, c, Under(p, 0), v), Under(p, 0), TRACE_MAX_DEPTH);
    }
  }

  lemma {:induction false} FilterEncrypted(c: Settings, s: Store, done: set<Id>, k: Place, dict: seq<Entry>, n: int)
    ensures StreamFilter(c, Mixed(Encrypting, c, s, done), Encrypted(c, k, dict, n)) == StreamFilter(c, s, dict)
  {
    HasCryptFilterEncrypted(c, s, done, k, dict, n);
    CryptFilterNameEncrypted(c, k, dict, n);
  }

  // ---- One object ----

  /** The object as it comes back: a stream that was encrypted has the right Length. */
  function Fixed(c: Settings, s: Store, n: Node): Node {
    if n.Stream? && !LeftAlone(Encrypting, c, s, n.dict) then n.(dict := WithLength(n.dict, |n.bytes|)) else n
  }

  /** Not treated differently by the two sides: an XRef stream under revision 5. */
  predicate SameSkips(c: Settings, n: Node) {
    n.Stream? ==> c.r != 5 || !IsXref(n.dict)
  }

  lemma {:induction false} StreamBack(c: Settings, s: Store, done: set<Id>, id: Id, n: Node)
    requires Inverse(c) && n.Stream? && !LeftAlone(Encrypting, c, s, n.dict)
    ensures TransformNode(Decrypting, c, Mixed(Encrypting, c, s, done), id, TransformNode(Encrypting, c, s, id, n)) == Fixed(c, s, n)
  {
    var s1, f := Mixed(Encrypting, c, s, done), StreamFilter(c, s, n.dict);
    var b1 := Cipher(Encrypting, c, f, PlaceOf(id, n), n.bytes);
    var d1 := Encrypted(c, PlaceOf(id, n), n.dict, |b1|);
    TypeEncrypted(c, PlaceOf(id, n), n.dict, |b1|);
    FilterEncrypted(c, s, done, PlaceOf(id, n), n.dict, |b1|);
    assert TransformNode(Encrypting, c, s, id, n) == Stream(n.num, n.gen, d1, b1);
    CipherBack(c, f, PlaceOf(id, n), n.bytes);
    DictBack(c, PlaceOf(id, n), n.dict, |b1|, |n.bytes|);
  }

  lemma {:induction false} DictBack(c: Settings, k: Place, dict: seq<Entry>, n1: int, n: int)
    requires Inverse(c)
    ensures Set(TransformEntries(Decrypting, c, k, 0, IsSig(dict), Encrypted(c, k, dict, n1)), LENGTH, Atom(Objects.Int(n)))
            == WithLength(dict, n)
  {
    var sig := IsSig(dict);
    SetTransformed(Decrypting, c, k, 0, sig, TransformEntries(Encrypting, c, k, 0, sig, dict), LENGTH, Objects.Int(n1));
    EntriesBack(c, k, 0, sig, dict);
    SetSet(dict, LENGTH, Atom(Objects.Int(n1)), Atom(Objects.Int(n)));
  }

  /** An object that both sides treat alike comes back. */
  lemma {:induction false} NodeBack(c: Settings, s: Store, done: set<Id>, id: Id, n: Node)
    requires Inverse(c) && SameSkips(c, n)
    ensures TransformNode(Decrypting, c, Mixed(Encrypting, c, s, done), id, TransformNode(Encrypting, c, s, id, n)) == Fixed(c, s, n)
  {
    var k := PlaceOf(id, n);
    match n
    case Indirect(num, gen, v) => TransformBack(c, k, v);
    case Stream(num, gen, dict, bytes) =>
      if LeftAlone(Encrypting, c, s, dict) {
        FilterMixed(Encrypting, c, s, done, dict);
      } else {
        StreamBack(c, s, done, id, n);
      }
  }

  // ---- Where the two walks go ----

  /** All objects as they come back. */
  function FixedStore(c: Settings, s: Store): Store {
    map id | id in s :: Fixed(c, s, s[id])
  }

  lemma {:induction false} TraceFixed(c: Settings, s: Store, v: Val, depth: nat)
    ensures TraceName(FixedStore(c, s), v, depth) == TraceName(s, v, depth)
    decreases depth
  {
    if v.Ptr? && v.id in s && s[v.id].Indirect? && depth > 0 { TraceFixed(c, s, s[v.id].value, depth - 1); }
  }

  lemma {:induction false} LeftAloneFixed(c: Settings, s: Store, dict: seq<Entry>, dict': seq<Entry>, n: int)
    requires dict' == dict || dict' == WithLength(dict, n)
    ensures LeftAlone(Encrypting, c, FixedStore(c, s), dict') == LeftAlone(Encrypting, c, s, dict)
    ensures IsSig(dict') == IsSig(dict)
  {
    var a := Atom(Objects.Int(n));
    assert TYPE != LENGTH && FILTER[0] != LENGTH[0] && DECODE_PARMS[0] != LENGTH[0];
    GetSet(dict, LENGTH, a, TYPE);
    GetSet(dict, LENGTH, a, FILTER);
    GetSet(dict, LENGTH, a, DECODE_PARMS);
    var f := Get(dict, FILTER);
    if f.Some? && f.value.Array? && f.value.elems != [] { TraceFixed(c, s, f.value.elems[0], TRACE_MAX_DEPTH); }
  }

  /** The pointers that decryption follows in an encrypted object. */
  lemma {:induction false} PtrsBack(c: Settings, s: Store, done: set<Id>, id: Id, n: Node)
    requires SameSkips(c, n)
    ensures var ps := NodePtrs(Decrypting, c, Mixed(Encrypting, c, s, done), TransformNode(Encrypting, c, s, id, n));
            ps <= NodePtrs(Encrypting, c, s, n) && ps == NodePtrs(Encrypting, c, FixedStore(c, s), Fixed(c, s, n))
  {
    var k := PlaceOf(id, n);
    match n
    case Indirect(num, gen, v) => PtrsTransformed(Encrypting, c, k, v);
    case Stream(num, gen, dict, bytes) =>
      LeftAloneFixed(c, s, dict, Fixed(c, s, n).dict, |bytes|);
      if LeftAlone(Encrypting, c, s, dict) {
        FilterMixed(Encrypting, c, s, done, dict);
      } else {
        var n1 := TransformNode(Encrypting, c, s, id, n);
        var len := |n1.bytes|;
        TypeEncrypted(c, k, dict, len);
        FilterEncrypted(c, s, done, k, dict, len);
        EncryptedPtrs(c, k, dict, len, |bytes|);
      }
  }

  lemma {:induction false} EncryptedPtrs(c: Settings, k: Place, dict: seq<Entry>, n1: int, n: int)
    ensures PtrsEntries(IsSig(dict), Encrypted(c, k, dict, n1)) == PtrsEntries(IsSig(dict), WithLength(dict, n))
            <= PtrsEntries(IsSig(dict), dict)
  {
    var sig := IsSig(dict);
    SetTransformed(Encrypting, c, k, 0, sig, dict, LENGTH, Objects.Int(n1));
    PtrsEntriesTransformed(Encrypting, c, k, 0, sig, WithLength(dict, n1));
    PtrsSet(sig, dict, n1);
    PtrsSet(sig, dict, n);
  }

  lemma {:induction false} LooksEncrypted(c: Settings, k: Place, v: Val)
    ensures LooksLikeEncrypt(Transform(Encrypting, c, k, v)) == LooksLikeEncrypt(v)
  {
    if v.Dict? {
      var es := v.entries;
      forall key | key in ENCRYPT_KEYS
        ensures Get(TransformEntries(Encrypting, c, k, 0, IsSig(es), es), key).Some? == Get(es, key).Some?
      {
        var p := GetTransformed(Encrypting, c, k, 0, IsSig(es), es, key);
      }
    }
  }

  /** The two sides treat the object alike: it is no XRef stream under revision 5, its number is not noted as
      decrypted, and it does not look like an old encryption dictionary. */
  predicate Alike(c: Settings, n: Node) {
    SameSkips(c, n) && (n.Indirect? ==> n.num !in c.decryptedNums && !LooksLikeEncrypt(n.value))
  }

  /** Decryption passes over no such object but XRef streams. */
  lemma {:induction false} EnteredAgain(c: Settings, s: Store, id: Id, n: Node)
    requires Alike(c, n) && PassedOver(Decrypting, c, TransformNode(Encrypting, c, s, id, n))
    ensures n.Stream? && IsXref(n.dict)
  {
    var k := PlaceOf(id, n);
    match n
    case Indirect(num, gen, v) => LooksEncrypted(c, k, v);
    case Stream(num, gen, dict, bytes) =>
      if !LeftAlone(Encrypting, c, s, dict) { TypeEncrypted(c, k, dict, |TransformNode(Encrypting, c, s, id, n).bytes|); }
  }

  // ---- The theorem ----

  /** Encryption of everything behind the pointers in `ps`. */
  ghost function EncryptAll(c: Settings, s: Store, ps: set<Id>): Store {
    Mixed(Encrypting, c, s, Reach(Encrypting, c, s, ps))
  }

  ghost function DecryptAll(c: Settings, s: Store, ps: set<Id>): Store {
    Mixed(Decrypting, c, s, Reach(Decrypting, c, s, ps))
  }

  /** Decryption goes nowhere that encryption has not been. */
  lemma {:induction false} DecryptedWasEncrypted(c: Settings, s: Store, ps: set<Id>)
    requires forall id :: id in Reach(Encrypting, c, s, ps) ==> SameSkips(c, s[id])
    ensures Reach(Decrypting, c, EncryptAll(c, s, ps), ps) <= Reach(Encrypting, c, s, ps)
  {
    var e, s1 := Reach(Encrypting, c, s, ps), EncryptAll(c, s, ps);
    ReachIsClosed(Encrypting, c, s, ps);
    forall x | x in e && x in s1 ensures Next(Decrypting, c, s1, x) <= e {
      PtrsBack(c, s, e, x, s[x]);
      assert Next(Decrypting, c, s1, x) <= Next(Encrypting, c, s, x);
    }
    assert Entered(Decrypting, c, s1, ps) <= Entered(Encrypting, c, s, ps);
    ReachIsLeast(Decrypting, c, s1, ps, e);
  }

  /** An object that is met again: it is decrypted, or it is an XRef stream that neither side touches. */
  ghost predicate MetAgain(c: Settings, s: Store, ps: set<Id>, id: Id) {
    id in Reach(Decrypting, c, EncryptAll(c, s, ps), ps)
    || (id in Reach(Encrypting, c, s, ps) && s[id].Stream? && IsXref(s[id].dict))
  }

  lemma {:induction false} MetAgainBack(c: Settings, s: Store, ps: set<Id>, id: Id)
    requires Inverse(c) && MetAgain(c, s, ps, id)
    requires forall id :: id in Reach(Encrypting, c, s, ps) ==> Alike(c, s[id])
    ensures id in s && DecryptAll(c, EncryptAll(c, s, ps), ps)[id] == Fixed(c, s, s[id])
  {
    var e, s1 := Reach(Encrypting, c, s, ps), EncryptAll(c, s, ps);
    DecryptedWasEncrypted(c, s, ps);
    NodeBack(c, s, e, id, s[id]);
  }

  /** From an object that is met again the pointers lead to such objects. */
  lemma {:induction false} MetAgainNext(c: Settings, s: Store, ps: set<Id>, x: Id, y: Id)
    requires MetAgain(c, s, ps, x) && x in s
    requires forall id :: id in Reach(Encrypting, c, s, ps) ==> Alike(c, s[id])
    requires y in Next(Encrypting, c, FixedStore(c, s), x)
    ensures MetAgain(c, s, ps, y)
  {
    var e, s1 := Reach(Encrypting, c, s, ps), EncryptAll(c, s, ps);
    DecryptedWasEncrypted(c, s, ps);
    ReachIsClosed(Encrypting, c, s, ps);
    ReachIsClosed(Decrypting, c, s1, ps);
    PtrsBack(c, s, e, x, s[x]);
    assert y in Next(Encrypting, c, s, x) && y in e;
    if PassedOver(Decrypting, c, s1[y]) {
      EnteredAgain(c, s, y, s[y]);
    } else if s[x].Stream? && IsXref(s[x].dict) {
      LeftAloneFixed(c, s, s[x].dict, s[x].dict, 0);
    } else {
      assert y in Next(Decrypting, c, s1, x);
    }
  }

  /** Everything that can be reached from a restored object has been met again. */
  lemma {:induction false} AllMetAgain(c: Settings, s: Store, ps: set<Id>, id: Id)
    requires forall id :: id in Reach(Encrypting, c, s, ps) ==> Alike(c, s[id])
    requires id in Reach(Encrypting, c, FixedStore(c, s), ps)
    ensures MetAgain(c, s, ps, id)
  {
    var e, s1, f := Reach(Encrypting, c, s, ps), EncryptAll(c, s, ps), FixedStore(c, s);
    var all := set x | x in s && MetAgain(c, s, ps, x);
    forall x | x in all && x in f ensures Next(Encrypting, c, f, x) <= all {
      forall y | y in Next(Encrypting, c, f, x) ensures y in all { MetAgainNext(c, s, ps, x, y); }
    }
    ReachIsClosed(Encrypting, c, s, ps);
    ReachIsClosed(Decrypting, c, s1, ps);
    forall y | y in Entered(Encrypting, c, f, ps) ensures y in all {
      assert y in Entered(Encrypting, c, s, ps) && y in e;
      if PassedOver(Decrypting, c, s1[y]) { EnteredAgain(c, s, y, s[y]); } else { assert y in Entered(Decrypting, c, s1, ps); }
    }
    ReachIsLeast(Encrypting, c, f, ps, all);
  }

  /** Decrypting what was encrypted gives back the direct object, and behind its pointers every object as it
      was but for a correct Length. What encryption does not reach is not touched. */
  lemma {:induction false} RoundTrip(c: Settings, s: Store, k: Place, v: Val)
    requires Inverse(c) && forall id :: id in Reach(Encrypting, c, s, Ptrs(v)) ==> Alike(c, s[id])
    ensures var v1 := Transform(Encrypting, c, k, v);
            var s2 := DecryptAll(c, EncryptAll(c, s, Ptrs(v)), Ptrs(v1));
            && Transform(Decrypting, c, k, v1) == v
            && (forall id :: id in Reach(Encrypting, c, FixedStore(c, s), Ptrs(v)) ==> s2[id] == FixedStore(c, s)[id])
            && (forall id :: id in s && id !in Reach(Encrypting, c, s, Ptrs(v)) ==> s2[id] == s[id])
  {
    var ps, f := Ptrs(v), FixedStore(c, s);
    TransformBack(c, k, v);
    PtrsTransformed(Encrypting, c, k, v);
    var s2 := DecryptAll(c, EncryptAll(c, s, ps), ps);
    forall id | id in Reach(Encrypting, c, f, ps) ensures s2[id] == f[id] {
      AllMetAgain(c, s, ps, id);
      MetAgainBack(c, s, ps, id);
    }
    DecryptedWasEncrypted(c, s, ps);
  }

  // ---- Where the two sides differ ----

  /** Only entered objects are reached. */
  lemma {:induction false} ReachIsEntered(m: Mode, c: Settings, s: Store, ps: set<Id>)
    ensures forall id :: id in Reach(m, c, s, ps) ==> !PassedOver(m, c, s[id])
  {
    ReachIsLeast(m, c, s, ps, Entered(m, c, s, s.Keys));
  }

  /** An object that looks like an encryption dictionary, or whose number is noted as decrypted, is encrypted
      but not decrypted: it comes back exactly if encryption does not change it. */
  lemma {:induction false} PassedOverStaysEncrypted(c: Settings, s: Store, ps: set<Id>, id: Id)
    requires id in Reach(Encrypting, c, s, ps) && s[id].Indirect?
    requires s[id].num in c.decryptedNums || LooksLikeEncrypt(s[id].value)
    ensures DecryptAll(c, EncryptAll(c, s, ps), ps)[id] == TransformNode(Encrypting, c, s, id, s[id])
  {
    var n := s[id];
    LooksEncrypted(c, PlaceOf(id, n), n.value);
    ReachIsEntered(Decrypting, c, EncryptAll(c, s, ps), ps);
  }

  /** Decryption passes over an encrypted object as it would over the object itself. */
  lemma {:induction false} PassedOverAgain(c: Settings, s: Store, id: Id, n: Node)
    ensures PassedOver(Decrypting, c, TransformNode(Encrypting, c, s, id, n)) == PassedOver(Decrypting, c, Fixed(c, s, n))
  {
    var k := PlaceOf(id, n);
    match n
    case Indirect(num, gen, v) => LooksEncrypted(c, k, v);
    case Stream(num, gen, dict, bytes) =>
      if !LeftAlone(Encrypting, c, s, dict) {
        TypeEncrypted(c, k, dict, |TransformNode(Encrypting, c, s, id, n).bytes|);
        GetSet(dict, LENGTH, Atom(Objects.Int(|bytes|)), TYPE);
        assert TYPE != LENGTH;
      }
  }

  ghost predicate SameSkipsAll(c: Settings, s: Store, ps: set<Id>) {
    forall id :: id in Reach(Encrypting, c, s, ps) ==> SameSkips(c, s[id])
  }

  lemma {:induction false} XrefFixed(c: Settings, s: Store, n: Node)
    ensures n.Stream? ==> Fixed(c, s, n).Stream? && IsXref(Fixed(c, s, n).dict) == IsXref(n.dict)
  {
    if n.Stream? {
      GetSet(n.dict, LENGTH, Atom(Objects.Int(|n.bytes|)), TYPE);
      assert TYPE != LENGTH;
    }
  }

  /** The walk over the encrypted objects is the walk over the objects themselves. */
  lemma {:induction false} SameNext(c: Settings, s: Store, e: set<Id>, x: Id)
    requires ClosedIn(Encrypting, c, s, e) && x in e && x in s && SameSkips(c, s[x])
    ensures Next(Decrypting, c, Mixed(Encrypting, c, s, e), x) == Next(Decrypting, c, FixedStore(c, s), x) <= e
  {
    var s1, f := Mixed(Encrypting, c, s, e), FixedStore(c, s);
    PtrsBack(c, s, e, x, s[x]);
    var ps := NodePtrs(Decrypting, c, s1, s1[x]);
    XrefFixed(c, s, s[x]);
    assert ps == NodePtrs(Decrypting, c, f, f[x]);
    SameEntered(c, s, e, ps);
    assert Entered(Encrypting, c, s, ps) <= Next(Encrypting, c, s, x);
  }

  lemma {:induction false} SameEntered(c: Settings, s: Store, e: set<Id>, ps: set<Id>)
    requires Entered(Encrypting, c, s, ps) <= e
    ensures Entered(Decrypting, c, Mixed(Encrypting, c, s, e), ps) == Entered(Decrypting, c, FixedStore(c, s), ps) <= e
  {
    forall y | y in ps && y in s
      ensures y in e
      ensures PassedOver(Decrypting, c, Mixed(Encrypting, c, s, e)[y]) == PassedOver(Decrypting, c, FixedStore(c, s)[y])
    {
      assert y in Entered(Encrypting, c, s, ps);
      PassedOverAgain(c, s, y, s[y]);
    }
  }

  lemma {:induction false} SameReach(c: Settings, s: Store, ps: set<Id>)
    requires SameSkipsAll(c, s, ps)
    ensures Reach(Decrypting, c, EncryptAll(c, s, ps), ps) == Reach(Decrypting, c, FixedStore(c, s), ps)
  {
    var e, s1, f := Reach(Encrypting, c, s, ps), EncryptAll(c, s, ps), FixedStore(c, s);
    var d1, d := Reach(Decrypting, c, s1, ps), Reach(Decrypting, c, f, ps);
    ReachIsClosed(Encrypting, c, s, ps);
    ReachIsClosed(Decrypting, c, s1, ps);
    ReachIsClosed(Decrypting, c, f, ps);
    SameEntered(c, s, e, ps);
    forall x | x in e && x in s ensures Next(Decrypting, c, s1, x) == Next(Decrypting, c, f, x) <= e {
      SameNext(c, s, e, x);
    }
    ReachIsLeast(Decrypting, c, s1, ps, d * e);
    ReachIsLeast(Decrypting, c, f, ps, d1 * e);
  }

  /** Where no XRef stream is reached under revision 5, an encrypted object comes back exactly if the walk that
      passes over objects that look like encryption dictionaries still reaches it, or if encryption leaves it as
      it was. */
  lemma {:induction false} ComesBackIff(c: Settings, s: Store, ps: set<Id>, id: Id)
    requires Inverse(c) && SameSkipsAll(c, s, ps) && id in Reach(Encrypting, c, s, ps)
    ensures DecryptAll(c, EncryptAll(c, s, ps), ps)[id] == Fixed(c, s, s[id])
            <==> id in Reach(Decrypting, c, FixedStore(c, s), ps)
                 || TransformNode(Encrypting, c, s, id, s[id]) == Fixed(c, s, s[id])
  {
    SameReach(c, s, ps);
    NodeBack(c, s, Reach(Encrypting, c, s, ps), id, s[id]);
  }

  /** An XRef stream under revision 5 is not encrypted but decrypted: it comes back only if decryption leaves it
      alone, or does not change its data. */
  lemma {:induction false} XrefDecryptedOnly(c: Settings, s: Store, ps: set<Id>, id: Id)
    requires id in Reach(Encrypting, c, s, ps) && id in Reach(Decrypting, c, EncryptAll(c, s, ps), ps)
    requires c.r == 5 && s[id].Stream? && IsXref(s[id].dict)
    ensures var s1, f := EncryptAll(c, s, ps), StreamFilter(c, s, s[id].dict);
            && s1[id] == s[id] && DecryptAll(c, s1, ps)[id] == TransformNode(Decrypting, c, s1, id, s[id])
            && (DecryptAll(c, s1, ps)[id] == s[id] ==>
                  || (c.v >= 4 && f == IDENTITY)
                  || Cipher(Decrypting, c, f, PlaceOf(id, s[id]), s[id].bytes) == s[id].bytes)
  {
    FilterMixed(Encrypting, c, s, Reach(Encrypting, c, s, ps), s[id].dict);
  }
}
