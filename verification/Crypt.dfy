/** Encryption and decryption of object graphs (core/crypt.go; section 7.6 of ISO 32000-1:2008). The ciphers
    are functions given from outside, and so are the objects behind the pointers of the graph. */
module Crypt {
  import opened Bytes
  import Objects

  // ---- Objects ----

  type Id = nat

  /** A direct object. Pointers lead to indirect objects and streams; atoms (numbers, names, references and
      so on) are never changed. */
  datatype Val = Atom(o: Objects.Obj) | Str(val: Bytes) | Array(elems: seq<Val>) | Dict(entries: seq<Entry>) | Ptr(id: Id)

  datatype Entry = Entry(key: Bytes, value: Val)

  datatype Node =
    | Indirect(num: int, gen: int, value: Val)
    | Stream(num: int, gen: int, dict: seq<Entry>, bytes: Bytes)

  type Store = map<Id, Node>

  function Get(es: seq<Entry>, key: Bytes): Option<Val> {
    if es == [] then None else if es[0].key == key then Some(es[0].value) else Get(es[1..], key)
  }

  function Set(es: seq<Entry>, key: Bytes, v: Val): seq<Entry> {
    if es == [] then [Entry(key, v)]
    else if es[0].key == key then [Entry(key, v)] + es[1..]
    else [es[0]] + Set(es[1..], key, v)
  }

  function NameOf(v: Option<Val>): Option<Bytes> {
    if v.Some? && v.value.Atom? && v.value.o.Name? then Some(v.value.o.name) else None
  }

  // ---- Parameters ----

  const STD_CF: Bytes := [0x53, 0x74, 0x64, 0x43, 0x46]
  const IDENTITY: Bytes := [0x49, 0x64, 0x65, 0x6E, 0x74, 0x69, 0x74, 0x79]
  const CRYPT: Bytes := [0x43, 0x72, 0x79, 0x70, 0x74]
  const XREF: Bytes := [0x58, 0x52, 0x65, 0x66]
  const SIG: Bytes := [0x53, 0x69, 0x67]
  const TYPE: Bytes := [0x54, 0x79, 0x70, 0x65]
  const FILTER: Bytes := [0x46, 0x69, 0x6C, 0x74, 0x65, 0x72]
  const DECODE_PARMS: Bytes := [0x44, 0x65, 0x63, 0x6F, 0x64, 0x65, 0x50, 0x61, 0x72, 0x6D, 0x73]
  const NAME: Bytes := [0x4E, 0x61, 0x6D, 0x65]
  const LENGTH: Bytes := [0x4C, 0x65, 0x6E, 0x67, 0x74, 0x68]
  const CONTENTS: Bytes := [0x43, 0x6F, 0x6E, 0x74, 0x65, 0x6E, 0x74, 0x73]
  const PARENT: Bytes := [0x50, 0x61, 0x72, 0x65, 0x6E, 0x74]
  const PREV: Bytes := [0x50, 0x72, 0x65, 0x76]
  const LAST: Bytes := [0x4C, 0x61, 0x73, 0x74]

  datatype Mode = Encrypting | Decrypting

  /** Where a string or stream is: the numbers that make its key, the object that holds it, and the way to it
      inside that object. */
  datatype Place = Place(num: int, gen: int, holder: Option<Id>, path: seq<nat>)

  function Under(k: Place, i: nat): Place {
    k.(path := k.path + [i])
  }

  /** The encryption dictionary and the ciphers. Both depend on the crypt filter and the numbers; encryption
      may also depend on the place, which stands for a random start value. */
  datatype Settings = Settings(
    v: int, r: int, streamFilter: Bytes, stringFilter: Bytes, filters: set<Bytes>,
    enc: (Bytes, Place, Bytes) -> Bytes, dec: (Bytes, int, int, Bytes) -> Bytes, decryptedNums: set<int>)

  ghost predicate Inverse(c: Settings) {
    forall f: Bytes, k: Place, b: Bytes :: c.dec(f, k.num, k.gen, c.enc(f, k, b)) == b
  }

  function Cipher(m: Mode, c: Settings, f: Bytes, k: Place, b: Bytes): Bytes {
    if c.v >= 4 && f == IDENTITY then b
    else if m.Encrypting? then c.enc(f, k, b)
    else c.dec(f, k.num, k.gen, b)
  }

  function StringFilter(c: Settings): Bytes {
    if c.v >= 4 then c.stringFilter else STD_CF
  }

  // ---- Direct objects ----

  predicate IsSig(es: seq<Entry>) {
    NameOf(Get(es, TYPE)) == Some(SIG)
  }

  /** The entries that are passed over. */
  predicate Skips(sig: bool, key: Bytes) {
    (sig && key == CONTENTS) || key == PARENT || key == PREV || key == LAST
  }

  function Transform(m: Mode, c: Settings, k: Place, v: Val): Val
    decreases v
  {
    match v
    case Str(b) => Str(Cipher(m, c, StringFilter(c), k, b))
    case Array(vs) => Array(TransformAll(m, c, k, 0, vs))
    case Dict(es) => Dict(TransformEntries(m, c, k, 0, IsSig(es), es))
    case _ => v
  }

  function TransformAll(m: Mode, c: Settings, k: Place, i: nat, vs: seq<Val>): seq<Val>
    decreases vs
  {
    if vs == [] then [] else [Transform(m, c, Under(k, i), vs[0])] + TransformAll(m, c, k, i + 1, vs[1..])
  }

  function TransformEntry(m: Mode, c: Settings, k: Place, sig: bool, e: Entry): Entry
    decreases e
  {
    if Skips(sig, e.key) then e else Entry(e.key, Transform(m, c, k, e.value))
  }

  function TransformEntries(m: Mode, c: Settings, k: Place, i: nat, sig: bool, es: seq<Entry>): seq<Entry>
    decreases es
  {
    if es == [] then []
    else [TransformEntry(m, c, Under(k, i), sig, es[0])] + TransformEntries(m, c, k, i + 1, sig, es[1..])
  }

  /** The pointers that are followed. */
  function Ptrs(v: Val): set<Id>
    decreases v
  {
    match v
    case Ptr(id) => {id}
    case Array(vs) => PtrsAll(vs)
    case Dict(es) => PtrsEntries(IsSig(es), es)
    case _ => {}
  }

  function PtrsAll(vs: seq<Val>): set<Id>
    decreases vs
  {
    if vs == [] then {} else Ptrs(vs[0]) + PtrsAll(vs[1..])
  }

  function PtrsEntry(sig: bool, e: Entry): set<Id>
    decreases e
  {
    if Skips(sig, e.key) then {} else Ptrs(e.value)
  }

  function PtrsEntries(sig: bool, es: seq<Entry>): set<Id>
    decreases es
  {
    if es == [] then {} else PtrsEntry(sig, es[0]) + PtrsEntries(sig, es[1..])
  }

  // ---- Nodes ----

  predicate IsXref(dict: seq<Entry>) {
    NameOf(Get(dict, TYPE)) == Some(XREF)
  }

  const TRACE_MAX_DEPTH := 10

  /** The name behind at most so many indirect objects, if it is one. */
  function TraceName(s: Store, v: Val, depth: nat): Option<Bytes>
    decreases depth
  {
    if v.Ptr? && v.id in s && s[v.id].Indirect? then
      if depth == 0 then None else TraceName(s, s[v.id].value, depth - 1)
    else NameOf(Some(v))
  }

  /** The first filter of a stream is the Crypt filter. */
  predicate HasCryptFilter(s: Store, dict: seq<Entry>) {
    match Get(dict, FILTER)
    case Some(Array(vs)) => vs != [] && TraceName(s, vs[0], TRACE_MAX_DEPTH) == Some(CRYPT)
    case _ => false
  }

  function CryptFilterName(c: Settings, dict: seq<Entry>): Bytes {
    match Get(dict, DECODE_PARMS)
    case Some(Dict(es)) =>
      (match NameOf(Get(es, NAME))
       case Some(n) => if n in c.filters then n else IDENTITY
       case None => IDENTITY)
    case _ => IDENTITY
  }

  function StreamFilter(c: Settings, s: Store, dict: seq<Entry>): Bytes {
    if c.v < 4 then STD_CF
    else if HasCryptFilter(s, dict) then CryptFilterName(c, dict)
    else c.streamFilter
  }

  /** A stream whose data and strings are left alone. */
  predicate LeftAlone(m: Mode, c: Settings, s: Store, dict: seq<Entry>) {
    || (IsXref(dict) && (m.Encrypting? || c.r != 5))
    || (c.v >= 4 && StreamFilter(c, s, dict) == IDENTITY)
  }

  function PlaceOf(id: Id, n: Node): Place {
    Place(n.num, n.gen, Some(id), [])
  }

  function TransformNode(m: Mode, c: Settings, s: Store, id: Id, n: Node): Node {
    var k := PlaceOf(id, n);
    match n
    case Indirect(num, gen, v) => Indirect(num, gen, Transform(m, c, k, v))
    case Stream(num, gen, dict, bytes) =>
      if LeftAlone(m, c, s, dict) then n
      else
        var bytes' := Cipher(m, c, StreamFilter(c, s, dict), k, bytes);
        var dict' := TransformEntries(m, c, k, 0, IsSig(dict), dict);
        Stream(num, gen, Set(dict', LENGTH, Atom(Objects.Int(|bytes'|))), bytes')
  }

  const ENCRYPT_KEYS: seq<Bytes> := [[0x56], [0x52], [0x4F], [0x55], [0x50]]

  /** An old copy of an encryption dictionary: it has V, R, O, U and P. */
  predicate LooksLikeEncrypt(v: Val) {
    v.Dict? && forall k :: k in ENCRYPT_KEYS ==> Get(v.entries, k).Some?
  }

  /** isDecrypted and isEncrypted for an object that has not been met. */
  predicate PassedOver(m: Mode, c: Settings, n: Node) {
    m.Decrypting? &&
    match n
    case Indirect(num, _, v) => num in c.decryptedNums || LooksLikeEncrypt(v)
    case Stream(_, _, dict, _) => c.r != 5 && IsXref(dict)
  }

  function NodePtrs(m: Mode, c: Settings, s: Store, n: Node): set<Id> {
    match n
    case Indirect(_, _, v) => Ptrs(v)
    case Stream(_, _, dict, _) => if LeftAlone(m, c, s, dict) then {} else PtrsEntries(IsSig(dict), dict)
  }

  /** The objects among `ps` that are entered. */
  function Entered(m: Mode, c: Settings, s: Store, ps: set<Id>): set<Id> {
    set p | p in ps && p in s && !PassedOver(m, c, s[p])
  }

  function Next(m: Mode, c: Settings, s: Store, id: Id): set<Id>
    requires id in s
  {
    Entered(m, c, s, NodePtrs(m, c, s, s[id]))
  }

  // ---- The traversal ----

  /** The store once the objects in `done` are transformed. */
  ghost function Mixed(m: Mode, c: Settings, s: Store, done: set<Id>): Store {
    map id | id in s :: if id in done then TransformNode(m, c, s, id, s[id]) else s[id]
  }

  /** Names do not change. */
  lemma {:induction false} TraceMixed(m: Mode, c: Settings, s: Store, done: set<Id>, v: Val, v': Val, k: Place, depth: nat)
    requires v' == v || v' == Transform(m, c, k, v)
    ensures TraceName(Mixed(m, c, s, done), v', depth) == TraceName(s, v, depth)
    decreases depth
  {
    if v.Ptr? && v.id in s && s[v.id].Indirect? && depth > 0 {
      var n := s[v.id];
      TraceMixed(m, c, s, done, n.value, Mixed(m, c, s, done)[v.id].value, PlaceOf(v.id, n), depth - 1);
    }
  }

  lemma {:induction false} FilterMixed(m: Mode, c: Settings, s: Store, done: set<Id>, dict: seq<Entry>)
    ensures StreamFilter(c, Mixed(m, c, s, done), dict) == StreamFilter(c, s, dict)
    ensures LeftAlone(m, c, Mixed(m, c, s, done), dict) == LeftAlone(m, c, s, dict)
  {
    var f := Get(dict, FILTER);
    if f.Some? && f.value.Array? && f.value.elems != [] {
      TraceMixed(m, c, s, done, f.value.elems[0], f.value.elems[0], Place(0, 0, None, []), TRACE_MAX_DEPTH);
    }
  }

  lemma {:induction false} Marked(p0: set<Id>, d0: set<Id>, p: set<Id>, d: set<Id>, id: Id)
    requires d0 <= p0 && id !in p0 && p - d == (p0 + {id}) - d0
    ensures id in p - d && p - (d + {id}) == p0 - d0
  {
    assert id in (p0 + {id}) - d0;
    assert p - (d + {id}) == (p - d) - {id};
    assert ((p0 + {id}) - d0) - {id} == p0 - d0;
  }

  ghost predicate ClosedIn(m: Mode, c: Settings, s: Store, all: set<Id>) {
    forall x :: x in all && x in s ==> Next(m, c, s, x) <= all
  }

  /** Object x cannot be avoided from the pointers in `ps` on. */
  ghost predicate InEvery(m: Mode, c: Settings, s: Store, ps: set<Id>, x: Id) {
    forall all :: ClosedIn(m, c, s, all) && Entered(m, c, s, ps) <= all ==> x in all
  }

  /** The objects reached from the pointers in `ps`. */
  ghost function Reach(m: Mode, c: Settings, s: Store, ps: set<Id>): set<Id> {
    set x | x in s && InEvery(m, c, s, ps, x)
  }

  lemma {:induction false} ReachIsClosed(m: Mode, c: Settings, s: Store, ps: set<Id>)
    ensures ClosedIn(m, c, s, Reach(m, c, s, ps)) && Entered(m, c, s, ps) <= Reach(m, c, s, ps)
  {
    var r := Reach(m, c, s, ps);
    forall x, y | x in r && y in Next(m, c, s, x) ensures y in r {
      forall all | ClosedIn(m, c, s, all) && Entered(m, c, s, ps) <= all ensures y in all {
        assert InEvery(m, c, s, ps, x);
        assert x in all;
      }
      assert InEvery(m, c, s, ps, y);
    }
    forall x | x in Entered(m, c, s, ps) ensures x in r { assert InEvery(m, c, s, ps, x); }
  }

  lemma {:induction false} ReachIsLeast(m: Mode, c: Settings, s: Store, ps: set<Id>, all: set<Id>)
    requires ClosedIn(m, c, s, all) && Entered(m, c, s, ps) <= all
    ensures Reach(m, c, s, ps) <= all
  {
    forall x | x in Reach(m, c, s, ps) ensures x in all { assert InEvery(m, c, s, ps, x); }
  }

  /** Encrypt and Decrypt: the same walk with other tests and the other cipher. */
  class Traversal {
    const mode: Mode
    const c: Settings
    var store: Store
    var processed: set<Id> // encryptedObjects or decryptedObjects
    ghost const start: Store
    ghost var done: set<Id>

    constructor (m: Mode, settings: Settings, objects: Store)
      ensures mode == m && c == settings && start == objects && store == objects && processed == {}
      ensures Valid() && done == {}
    {
      mode, c, store, processed, start, done := m, settings, objects, {}, objects, {};
    }

    /** What has been marked is being walked or transformed once, and transformed objects lead to marked
        ones only. */
    ghost predicate Valid()
      reads this
    {
      && done <= processed <= start.Keys
      && store == Mixed(mode, c, start, done)
      && forall x :: x in done ==> Next(mode, c, start, x) <= processed
    }

    ghost predicate Closed(all: set<Id>) {
      ClosedIn(mode, c, start, all)
    }

    /** What a walk leaves of the state before it. */
    twostate predicate Walked(all: set<Id>)
      reads this
    {
      && Valid() && old(processed) <= processed <= old(processed) + all
      && processed - done == old(processed - done)
    }

    /** The object is overwritten. */
    method Finish(id: Id, n: Node)
      requires Valid() && id in processed - done && n == TransformNode(mode, c, start, id, start[id])
      requires Next(mode, c, start, id) <= processed
      modifies this`store, this`done
      ensures Valid() && done == old(done) + {id}
    {
      store := store[id := n];
      done := done + {id};
    }

    method Walk(id: Id, ghost all: set<Id>)
      requires Valid() && Closed(all) && Entered(mode, c, start, {id}) <= all
      modifies this`store, this`processed, this`done
      ensures Walked(all) && Entered(mode, c, start, {id}) <= processed
      decreases start.Keys - processed, 0
    {
      if id !in store || id in processed { return; }
      assert id !in done && store[id] == start[id];
      if PassedOver(mode, c, store[id]) { return; }
      assert id in Entered(mode, c, start, {id});
      ghost var p0, d0 := processed, done;
      processed := processed + {id};
      var n := store[id];
      var n';
      if n.Indirect? {
        var v' := WalkVal(n.value, PlaceOf(id, n), all);
        n' := Indirect(n.num, n.gen, v');
      } else {
        n' := WalkStream(id, n, all);
      }
      Marked(p0, d0, processed, done, id);
      Finish(id, n');
    }

    method WalkStream(id: Id, n: Node, ghost all: set<Id>) returns (n': Node)
      requires Valid() && Closed(all) && n.Stream? && Entered(mode, c, start, NodePtrs(mode, c, start, n)) <= all
      modifies this`store, this`processed, this`done
      ensures Walked(all) && Entered(mode, c, start, NodePtrs(mode, c, start, n)) <= processed
      ensures n' == TransformNode(mode, c, start, id, n)
      decreases start.Keys - processed, 3
    {
      FilterMixed(mode, c, start, done, n.dict);
      if LeftAlone(mode, c, store, n.dict) { return n; }
      var filter := StreamFilter(c, store, n.dict);
      var dict' := WalkEntries(IsSig(n.dict), n.dict, PlaceOf(id, n), 0, all);
      var bytes' := Cipher(mode, c, filter, PlaceOf(id, n), n.bytes);
      return Stream(n.num, n.gen, Set(dict', LENGTH, Atom(Objects.Int(|bytes'|))), bytes');
    }

    method WalkVal(v: Val, k: Place, ghost all: set<Id>) returns (v': Val)
      requires Valid() && Closed(all) && Entered(mode, c, start, Ptrs(v)) <= all
      modifies this`store, this`processed, this`done
      ensures Walked(all) && Entered(mode, c, start, Ptrs(v)) <= processed
      ensures v' == Transform(mode, c, k, v)
      decreases start.Keys - processed, 1, v
    {
      match v
      case Ptr(id) =>
        Walk(id, all);
        return v;
      case Str(b) =>
        return Str(Cipher(mode, c, StringFilter(c), k, b));
      case Array(vs) =>
        var vs' := WalkElems(vs, k, 0, all);
        return Array(vs');
      case Dict(es) =>
        var es' := WalkEntries(IsSig(es), es, k, 0, all);
        return Dict(es');
      case Atom(_) =>
        return v;
    }

    method WalkElems(vs: seq<Val>, k: Place, i: nat, ghost all: set<Id>) returns (vs': seq<Val>)
      requires Valid() && Closed(all) && Entered(mode, c, start, PtrsAll(vs)) <= all
      modifies this`store, this`processed, this`done
      ensures Walked(all) && Entered(mode, c, start, PtrsAll(vs)) <= processed
      ensures vs' == TransformAll(mode, c, k, i, vs)
      decreases start.Keys - processed, 1, vs
    {
      if vs == [] { return []; }
      var v' := WalkVal(vs[0], Under(k, i), all);
      var more := WalkElems(vs[1..], k, i + 1, all);
      return [v'] + more;
    }

    method WalkEntries(sig: bool, es: seq<Entry>, k: Place, i: nat, ghost all: set<Id>) returns (es': seq<Entry>)
      requires Valid() && Closed(all) && Entered(mode, c, start, PtrsEntries(sig, es)) <= all
      modifies this`store, this`processed, this`done
      ensures Walked(all) && Entered(mode, c, start, PtrsEntries(sig, es)) <= processed
      ensures es' == TransformEntries(mode, c, k, i, sig, es)
      decreases start.Keys - processed, 1, es
    {
      if es == [] { return []; }
      var e' := es[0];
      if !Skips(sig, es[0].key) {
        var v' := WalkVal(es[0].value, Under(k, i), all);
        e' := Entry(es[0].key, v');
      }
      var more := WalkEntries(sig, es[1..], k, i + 1, all);
      return [e'] + more;
    }

    /** A walk from a new traversal ends, and transforms every object that is reached once and no other,
        however the objects share and point to each other. */
    method Process(v: Val, k: Place) returns (v': Val)
      requires Valid() && processed == {}
      modifies this`store, this`processed, this`done
      ensures v' == Transform(mode, c, k, v)
      ensures processed == Reach(mode, c, start, Ptrs(v))
      ensures store == Mixed(mode, c, start, Reach(mode, c, start, Ptrs(v)))
    {
      ghost var all := Reach(mode, c, start, Ptrs(v));
      ReachIsClosed(mode, c, start, Ptrs(v));
      v' := WalkVal(v, k, all);
      assert processed - done == {};
      assert processed == done;
      ReachIsLeast(mode, c, start, Ptrs(v), processed);
    }
  }
}
