/** What encryption and decryption do to each string and to the data of each stream, told by the places where they
    stand: a way of indices into a direct object, and a trail of pointers from object to object. */
module CryptPlaces {
  import opened Bytes
  import Objects
  import opened Crypt
  import opened CryptRoundTrip

  type Path = seq<nat>

  /** What stands at a path into arrays and dictionaries. */
  function At(v: Val, path: Path): Option<Val>
    decreases |path|
  {
    if path == [] then Some(v)
    else match v
      case Array(vs) => if path[0] < |vs| then At(vs[path[0]], path[1..]) else None
      case Dict(es) => if path[0] < |es| then At(es[path[0]].value, path[1..]) else None
      case _ => None
  }

  /** The first entry for a key has this value. */
  ghost predicate HasEntry(es: seq<Entry>, key: string, v: Val) {
    exists i :: 0 <= i < |es| && es[i] == Entry(Ascii(key), v) && forall j :: 0 <= j < i ==> es[j].key != Ascii(key)
  }

  ghost predicate HasName(es: seq<Entry>, key: string, name: string) {
    HasEntry(es, key, Atom(Objects.Name(Ascii(name))))
  }

  /** An entry that is looked into: not Parent, Prev or Last, and not the Contents of a signature. */
  ghost predicate IsOpenKey(es: seq<Entry>, key: Bytes) {
    && key != Ascii("Parent") && key != Ascii("Prev") && key != Ascii("Last")
    && !(key == Ascii("Contents") && HasName(es, "Type", "Sig"))
  }

  /** No entry on the path is passed over. */
  ghost predicate IsOpen(v: Val, path: Path)
    decreases |path|
  {
    path == [] ||
    match v
    case Array(vs) => path[0] < |vs| && IsOpen(vs[path[0]], path[1..])
    case Dict(es) => path[0] < |es| && IsOpenKey(es, es[path[0]].key) && IsOpen(es[path[0]].value, path[1..])
    case _ => false
  }

  // ---- Names ----

  lemma {:induction false} NamesAre()
    ensures Ascii("Parent") == PARENT && Ascii("Prev") == PREV && Ascii("Last") == LAST
    ensures Ascii("Contents") == CONTENTS && Ascii("Type") == TYPE && Ascii("Sig") == SIG
  {
  }

  lemma {:induction false} MoreNames()
    ensures Ascii("XRef") == XREF && Ascii("Length") == LENGTH && Ascii("Identity") == IDENTITY
    ensures Ascii("StdCF") == STD_CF
  {
  }

  lemma {:induction false} FilterNames()
    ensures Ascii("Filter") == FILTER && Ascii("DecodeParms") == DECODE_PARMS && Ascii("Name") == NAME
    ensures Ascii("Crypt") == CRYPT
  {
  }

  lemma {:induction false} GetIs(es: seq<Entry>, key: Bytes, i: nat)
    requires i < |es| && es[i].key == key && forall j :: 0 <= j < i ==> es[j].key != key
    ensures Get(es, key) == Some(es[i].value)
    decreases |es|
  {
    if i == 0 {
    } else {
      assert es[0].key != key && es[1..][i - 1] == es[i];
      GetIs(es[1..], key, i - 1);
    }
  }

  lemma {:induction false} GetFinds(es: seq<Entry>, key: Bytes) returns (i: nat)
    requires Get(es, key).Some?
    ensures i < |es| && es[i].key == key && Get(es, key) == Some(es[i].value)
    ensures forall j :: 0 <= j < i ==> es[j].key != key
    decreases |es|
  {
    if es[0].key == key {
      i := 0;
    } else {
      var k := GetFinds(es[1..], key);
      i := k + 1;
      forall j | 0 <= j < i ensures es[j].key != key { if j > 0 { assert es[j] == es[1..][j - 1]; } }
    }
  }

  lemma {:induction false} HasEntryIff(es: seq<Entry>, key: string, v: Val)
    ensures HasEntry(es, key, v) <==> Get(es, Ascii(key)) == Some(v)
  {
    if HasEntry(es, key, v) {
      var i :| 0 <= i < |es| && es[i] == Entry(Ascii(key), v) && forall j :: 0 <= j < i ==> es[j].key != Ascii(key);
      GetIs(es, Ascii(key), i);
    }
    if Get(es, Ascii(key)) == Some(v) {
      var i := GetFinds(es, Ascii(key));
      assert es[i] == Entry(Ascii(key), v);
    }
  }

  lemma {:induction false} HasNameIff(es: seq<Entry>, key: string, name: string)
    ensures HasName(es, key, name) <==> NameOf(Get(es, Ascii(key))) == Some(Ascii(name))
  {
    HasEntryIff(es, key, Atom(Objects.Name(Ascii(name))));
  }

  lemma {:induction false} OpenKeyIff(es: seq<Entry>, key: Bytes)
    ensures IsOpenKey(es, key) <==> !Skips(IsSig(es), key)
  {
    NamesAre();
    HasNameIff(es, "Type", "Sig");
  }

  // ---- Direct objects ----

  lemma {:induction false} AllAt(m: Mode, c: Settings, k: Place, i: nat, vs: seq<Val>, j: nat)
    requires j < |vs|
    ensures |TransformAll(m, c, k, i, vs)| == |vs|
    ensures TransformAll(m, c, k, i, vs)[j] == Transform(m, c, Under(k, i + j), vs[j])
    decreases |vs|
  {
    if j > 0 {
      AllAt(m, c, k, i + 1, vs[1..], j - 1);
    } else if |vs| > 1 {
      AllAt(m, c, k, i + 1, vs[1..], 0);
    } else {
      assert vs[1..] == [];
    }
  }

  lemma {:induction false} EntriesAt(m: Mode, c: Settings, k: Place, i: nat, sig: bool, es: seq<Entry>, j: nat)
    requires j < |es|
    ensures |TransformEntries(m, c, k, i, sig, es)| == |es|
    ensures TransformEntries(m, c, k, i, sig, es)[j] == TransformEntry(m, c, Under(k, i + j), sig, es[j])
    decreases |es|
  {
    if j > 0 {
      EntriesAt(m, c, k, i + 1, sig, es[1..], j - 1);
    } else if |es| > 1 {
      EntriesAt(m, c, k, i + 1, sig, es[1..], 0);
    } else {
      assert es[1..] == [];
    }
  }

  /** What becomes of a string at place k. */
  function Ciphered(m: Mode, c: Settings, f: Bytes, k: Place, b: Bytes): Bytes {
    if m.Encrypting? then c.enc(f, k, b) else c.dec(f, k.num, k.gen, b)
  }

  /** The crypt filter for strings; the Identity filter is none. */
  function FilterOfStrings(c: Settings): Option<Bytes> {
    if c.v < 4 then Some(Ascii("StdCF"))
    else if c.stringFilter == Ascii("Identity") then None
    else Some(c.stringFilter)
  }

  /** What stands at a place after the walk, where x stood before. */
  predicate IsWalked(m: Mode, c: Settings, k: Place, x: Val, y: Val) {
    match x
    case Str(b) =>
      y == (if FilterOfStrings(c).Some? then Str(Ciphered(m, c, FilterOfStrings(c).value, k, b)) else x)
    case Array(vs) => y.Array? && |y.elems| == |vs|
    case Dict(es) =>
      && y.Dict? && |y.entries| == |es|
      && forall j :: 0 <= j < |es| ==> y.entries[j].key == es[j].key
    case _ => y == x
  }

  lemma {:induction false} TopIsWalked(m: Mode, c: Settings, k: Place, v: Val)
    ensures IsWalked(m, c, k, v, Transform(m, c, k, v))
  {
    match v
    case Str(b) => MoreNames();
    case Array(vs) => if vs != [] { AllAt(m, c, k, 0, vs, 0); }
    case Dict(es) =>
      if es != [] { EntriesAt(m, c, k, 0, IsSig(es), es, 0); }
      forall j | 0 <= j < |es| ensures Transform(m, c, k, v).entries[j].key == es[j].key {
        EntriesAt(m, c, k, 0, IsSig(es), es, j);
      }
    case _ =>
  }

  /** At an open path a string is enciphered for its own place, and everything else is as it was; behind an entry
      that is passed over nothing changes; and nothing is added or left out. */
  ghost predicate IsWalkedAt(m: Mode, c: Settings, k: Place, v: Val, w: Val, path: Path) {
    var x, y := At(v, path), At(w, path);
    && (x.Some? <==> y.Some?)
    && (IsOpen(v, path) && x.Some? ==> IsWalked(m, c, k.(path := k.path + path), x.value, y.value))
    && (!IsOpen(v, path) ==> y == x)
  }

  lemma {:induction false} ElemWalkedAt(m: Mode, c: Settings, k: Place, vs: seq<Val>, path: Path)
    requires path != []
    requires path[0] < |vs| ==>
               var v := vs[path[0]];
               IsWalkedAt(m, c, Under(k, path[0]), v, Transform(m, c, Under(k, path[0]), v), path[1..])
    ensures IsWalkedAt(m, c, k, Array(vs), Transform(m, c, k, Array(vs)), path)
  {
    assert k.path + path == (k.path + [path[0]]) + path[1..];
    if vs != [] { AllAt(m, c, k, 0, vs, 0); }
    if path[0] < |vs| { AllAt(m, c, k, 0, vs, path[0]); }
  }

  lemma {:induction false} EntryWalkedAt(m: Mode, c: Settings, k: Place, es: seq<Entry>, path: Path)
    requires path != []
    requires path[0] < |es| ==>
               var v := es[path[0]].value;
               IsWalkedAt(m, c, Under(k, path[0]), v, Transform(m, c, Under(k, path[0]), v), path[1..])
    ensures IsWalkedAt(m, c, k, Dict(es), Transform(m, c, k, Dict(es)), path)
  {
    assert k.path + path == (k.path + [path[0]]) + path[1..];
    if es != [] { EntriesAt(m, c, k, 0, IsSig(es), es, 0); }
    if path[0] < |es| {
      EntriesAt(m, c, k, 0, IsSig(es), es, path[0]);
      OpenKeyIff(es, es[path[0]].key);
    }
  }

  /** So it is at every path into every direct object. */
  lemma {:induction false} WalkedAt(m: Mode, c: Settings, k: Place, v: Val, path: Path)
    ensures IsWalkedAt(m, c, k, v, Transform(m, c, k, v), path)
    decreases |path|
  {
    if path == [] {
      assert k.path + path == k.path;
      TopIsWalked(m, c, k, v);
    } else {
      match v
      case Array(vs) =>
        if path[0] < |vs| { WalkedAt(m, c, Under(k, path[0]), vs[path[0]], path[1..]); }
        ElemWalkedAt(m, c, k, vs, path);
      case Dict(es) =>
        if path[0] < |es| { WalkedAt(m, c, Under(k, path[0]), es[path[0]].value, path[1..]); }
        EntryWalkedAt(m, c, k, es, path);
      case _ =>
    }
  }

  // ---- Pointers ----

  /** A pointer that is followed: it stands at an open path. */
  ghost predicate PointsTo(v: Val, id: Id) {
    exists path :: IsOpen(v, path) && At(v, path) == Some(Ptr(id))
  }

  lemma {:induction false} PtrsAllAt(vs: seq<Val>, id: Id) returns (j: nat)
    requires id in PtrsAll(vs)
    ensures j < |vs| && id in Ptrs(vs[j])
    decreases |vs|
  {
    if id in Ptrs(vs[0]) {
      j := 0;
    } else {
      var k := PtrsAllAt(vs[1..], id);
      j := k + 1;
    }
  }

  lemma {:induction false} PtrsEntriesAt(sig: bool, es: seq<Entry>, id: Id) returns (j: nat)
    requires id in PtrsEntries(sig, es)
    ensures j < |es| && id in PtrsEntry(sig, es[j])
    decreases |es|
  {
    if id in PtrsEntry(sig, es[0]) {
      j := 0;
    } else {
      var k := PtrsEntriesAt(sig, es[1..], id);
      j := k + 1;
    }
  }

  lemma {:induction false} InPtrsAll(vs: seq<Val>, j: nat)
    requires j < |vs|
    ensures Ptrs(vs[j]) <= PtrsAll(vs)
    decreases |vs|
  {
    if j > 0 { InPtrsAll(vs[1..], j - 1); }
  }

  lemma {:induction false} InPtrsEntries(sig: bool, es: seq<Entry>, j: nat)
    requires j < |es|
    ensures PtrsEntry(sig, es[j]) <= PtrsEntries(sig, es)
    decreases |es|
  {
    if j > 0 { InPtrsEntries(sig, es[1..], j - 1); }
  }

  lemma {:induction false} PtrHasPath(v: Val, id: Id) returns (path: Path)
    requires id in Ptrs(v)
    ensures IsOpen(v, path) && At(v, path) == Some(Ptr(id))
    decreases v
  {
    match v
    case Ptr(_) =>
      path := [];
    case Array(vs) =>
      var j := PtrsAllAt(vs, id);
      var rest := PtrHasPath(vs[j], id);
      path := [j] + rest;
      assert path[1..] == rest;
    case Dict(es) =>
      var j := PtrsEntriesAt(IsSig(es), es, id);
      OpenKeyIff(es, es[j].key);
      assert es[j].value < v;
      var rest := PtrHasPath(es[j].value, id);
      path := [j] + rest;
      assert path[1..] == rest;
  }

  lemma {:induction false} PathIsPtr(v: Val, id: Id, path: Path)
    requires IsOpen(v, path) && At(v, path) == Some(Ptr(id))
    ensures id in Ptrs(v)
    decreases |path|
  {
    if path == [] {
    } else {
      PathIsPtrStep(v, id, path);
    }
  }

  lemma {:induction false} PathIsPtrStep(v: Val, id: Id, path: Path)
    requires path != [] && IsOpen(v, path) && At(v, path) == Some(Ptr(id))
    ensures id in Ptrs(v)
    decreases |path|, 0
  {
    match v
    case Array(vs) =>
      PathIsPtr(vs[path[0]], id, path[1..]);
      InPtrsAll(vs, path[0]);
    case Dict(es) =>
      OpenKeyIff(es, es[path[0]].key);
      PathIsPtr(es[path[0]].value, id, path[1..]);
      InPtrsEntries(IsSig(es), es, path[0]);
  }

  lemma {:induction false} PointsToIff(v: Val, id: Id)
    ensures PointsTo(v, id) <==> id in Ptrs(v)
  {
    if id in Ptrs(v) { var path := PtrHasPath(v, id); }
    forall path | IsOpen(v, path) && At(v, path) == Some(Ptr(id)) ensures id in Ptrs(v) { PathIsPtr(v, id, path); }
  }

  // ---- Streams ----

  /** A name, or one behind at most ten indirect objects. */
  ghost predicate IsNameBehind(s: Store, v: Val, name: Bytes, depth: nat)
    decreases depth
  {
    || v == Atom(Objects.Name(name))
    || (depth > 0 && v.Ptr? && v.id in s && s[v.id].Indirect? && IsNameBehind(s, s[v.id].value, name, depth - 1))
  }

  lemma {:induction false} NameBehindIff(s: Store, v: Val, name: Bytes, depth: nat)
    ensures IsNameBehind(s, v, name, depth) <==> TraceName(s, v, depth) == Some(name)
    decreases depth
  {
    if depth > 0 && v.Ptr? && v.id in s && s[v.id].Indirect? { NameBehindIff(s, s[v.id].value, name, depth - 1); }
  }

  /** The first of an array of filters is Crypt. */
  ghost predicate StartsWithCrypt(s: Store, dict: seq<Entry>) {
    exists vs: seq<Val> ::
      HasEntry(dict, "Filter", Array(vs)) && vs != [] && IsNameBehind(s, vs[0], Ascii("Crypt"), 10)
  }

  /** The decode parameters name a crypt filter. */
  ghost predicate NamesFilter(dict: seq<Entry>, name: Bytes) {
    exists es: seq<Entry> ::
      HasEntry(dict, "DecodeParms", Dict(es)) && HasEntry(es, "Name", Atom(Objects.Name(name)))
  }

  lemma {:induction false} StartsWithCryptIff(s: Store, dict: seq<Entry>)
    ensures StartsWithCrypt(s, dict) <==> HasCryptFilter(s, dict)
  {
    FilterNames();
    var f := Get(dict, FILTER);
    forall vs: seq<Val> ensures HasEntry(dict, "Filter", Array(vs)) <==> f == Some(Array(vs)) {
      HasEntryIff(dict, "Filter", Array(vs));
    }
    if f.Some? && f.value.Array? && f.value.elems != [] {
      NameBehindIff(s, f.value.elems[0], CRYPT, 10);
      assert HasEntry(dict, "Filter", Array(f.value.elems));
    }
  }

  lemma {:induction false} NamesFilterIff(dict: seq<Entry>, name: Bytes)
    ensures NamesFilter(dict, name)
            <==> var p := Get(dict, DECODE_PARMS);
                 p.Some? && p.value.Dict? && Get(p.value.entries, NAME) == Some(Atom(Objects.Name(name)))
  {
    FilterNames();
    forall es: seq<Entry>
      ensures HasEntry(dict, "DecodeParms", Dict(es)) <==> Get(dict, DECODE_PARMS) == Some(Dict(es))
      ensures HasEntry(es, "Name", Atom(Objects.Name(name))) <==> Get(es, NAME) == Some(Atom(Objects.Name(name)))
    {
      HasEntryIff(dict, "DecodeParms", Dict(es));
      HasEntryIff(es, "Name", Atom(Objects.Name(name)));
    }
    var p := Get(dict, DECODE_PARMS);
    if p.Some? && p.value.Dict? { assert p == Some(Dict(p.value.entries)); }
  }

  /** The crypt filter of a stream: the standard one below version 4, and then that for streams unless the stream
      has a Crypt filter of its own, which is Identity if it names none that is known. */
  lemma {:induction false} StreamFilterIs(c: Settings, s: Store, dict: seq<Entry>)
    ensures var f := StreamFilter(c, s, dict);
            && (c.v < 4 ==> f == Ascii("StdCF"))
            && (c.v >= 4 && !StartsWithCrypt(s, dict) ==> f == c.streamFilter)
            && (c.v >= 4 && StartsWithCrypt(s, dict) ==>
                  if exists n :: NamesFilter(dict, n) && n in c.filters then NamesFilter(dict, f) && f in c.filters
                  else f == Ascii("Identity"))
  {
    MoreNames();
    StartsWithCryptIff(s, dict);
    forall n: Bytes
      ensures NamesFilter(dict, n)
              <==> var p := Get(dict, DECODE_PARMS);
                   p.Some? && p.value.Dict? && Get(p.value.entries, NAME) == Some(Atom(Objects.Name(n)))
    {
      NamesFilterIff(dict, n);
    }
  }

  /** A cross-reference stream, or one with the Identity filter, is left alone. */
  ghost predicate IsLeftAlone(m: Mode, c: Settings, s: Store, dict: seq<Entry>) {
    || (HasName(dict, "Type", "XRef") && (m.Encrypting? || c.r != 5))
    || (c.v >= 4 && StreamFilter(c, s, dict) == Ascii("Identity"))
  }

  lemma {:induction false} LeftAloneIff(m: Mode, c: Settings, s: Store, dict: seq<Entry>)
    ensures IsLeftAlone(m, c, s, dict) <==> LeftAlone(m, c, s, dict)
  {
    NamesAre();
    MoreNames();
    HasNameIff(dict, "Type", "XRef");
  }

  // ---- Objects ----

  /** The object that stands for n after the walk has been to it. */
  ghost predicate IsNodeWalked(m: Mode, c: Settings, s: Store, id: Id, n: Node, n': Node) {
    var k := Place(n.num, n.gen, Some(id), []);
    match n
    case Indirect(num, gen, v) =>
      n'.Indirect? && n'.num == num && n'.gen == gen && forall path :: IsWalkedAt(m, c, k, v, n'.value, path)
    case Stream(num, gen, dict, bytes) =>
      if IsLeftAlone(m, c, s, dict) then n' == n
      else
        && n'.Stream? && n'.num == num && n'.gen == gen && |dict| <= |n'.dict|
        && n'.bytes == Ciphered(m, c, StreamFilter(c, s, dict), k, bytes)
        && HasEntry(n'.dict, "Length", Atom(Objects.Int(|n'.bytes|)))
        && forall path :: IsElsewhere(dict, path) ==> IsWalkedAt(m, c, k, Dict(dict), Dict(n'.dict), path)
  }

  /** A path into a dictionary that does not lead to its length. */
  predicate IsElsewhere(dict: seq<Entry>, path: Path) {
    path != [] && path[0] < |dict| && dict[path[0]].key != Ascii("Length")
  }

  lemma {:induction false} SetAt(es: seq<Entry>, key: Bytes, v: Val, j: nat)
    requires j < |es| && es[j].key != key
    ensures j < |Set(es, key, v)| && Set(es, key, v)[j] == es[j] && |es| <= |Set(es, key, v)|
    decreases |es|
  {
    if es[0].key == key {
      assert Set(es, key, v) == [Entry(key, v)] + es[1..];
    } else if j > 0 {
      SetAt(es[1..], key, v, j - 1);
    } else {
      SetGrows(es[1..], key, v);
    }
  }

  lemma {:induction false} SetGrows(es: seq<Entry>, key: Bytes, v: Val)
    ensures |es| <= |Set(es, key, v)|
    decreases |es|
  {
    if es == [] || es[0].key == key {
    } else {
      SetGrows(es[1..], key, v);
    }
  }

  lemma {:induction false} DictWalked(m: Mode, c: Settings, k: Place, dict: seq<Entry>, n: int, path: Path)
    requires IsElsewhere(dict, path)
    ensures var dict' := Set(TransformEntries(m, c, k, 0, IsSig(dict), dict), LENGTH, Atom(Objects.Int(n)));
            IsWalkedAt(m, c, k, Dict(dict), Dict(dict'), path)
  {
    var es, j := TransformEntries(m, c, k, 0, IsSig(dict), dict), path[0];
    MoreNames();
    WalkedAt(m, c, k, Dict(dict), path);
    EntriesAt(m, c, k, 0, IsSig(dict), dict, j);
    SetAt(es, LENGTH, Atom(Objects.Int(n)), j);
    assert At(Dict(Set(es, LENGTH, Atom(Objects.Int(n)))), path) == At(Dict(es), path);
  }

  lemma {:induction false} NodeWalked(m: Mode, c: Settings, s: Store, id: Id, n: Node)
    ensures IsNodeWalked(m, c, s, id, n, TransformNode(m, c, s, id, n))
  {
    var k, n' := Place(n.num, n.gen, Some(id), []), TransformNode(m, c, s, id, n);
    match n
    case Indirect(num, gen, v) =>
      forall path ensures IsWalkedAt(m, c, k, v, n'.value, path) { WalkedAt(m, c, k, v, path); }
    case Stream(num, gen, dict, bytes) =>
      LeftAloneIff(m, c, s, dict);
      if !IsLeftAlone(m, c, s, dict) { StreamWalked(m, c, s, id, n); }
  }

  lemma {:induction false} StreamWalked(m: Mode, c: Settings, s: Store, id: Id, n: Node)
    requires n.Stream? && !LeftAlone(m, c, s, n.dict)
    ensures IsNodeWalked(m, c, s, id, n, TransformNode(m, c, s, id, n))
  {
    var k, n', dict := PlaceOf(id, n), TransformNode(m, c, s, id, n), n.dict;
    var es, len := TransformEntries(m, c, k, 0, IsSig(dict), dict), Atom(Objects.Int(|n'.bytes|));
    LeftAloneIff(m, c, s, dict);
    MoreNames();
    if dict != [] { EntriesAt(m, c, k, 0, IsSig(dict), dict, 0); }
    SetGrows(es, LENGTH, len);
    GetSet(es, LENGTH, len, LENGTH);
    HasEntryIff(n'.dict, "Length", len);
    forall path | IsElsewhere(dict, path) ensures IsWalkedAt(m, c, k, Dict(dict), Dict(n'.dict), path) {
      DictWalked(m, c, k, dict, |n'.bytes|, path);
    }
  }

  // ---- Trails ----

  /** Decryption passes over objects noted as decrypted, old encryption dictionaries, and XRef streams. */
  ghost predicate IsPassedOver(m: Mode, c: Settings, n: Node) {
    m.Decrypting? &&
    match n
    case Indirect(num, _, v) => num in c.decryptedNums || (v.Dict? && HasEncryptKeys(v.entries))
    case Stream(_, _, dict, _) => c.r != 5 && HasName(dict, "Type", "XRef")
  }

  predicate HasKey(es: seq<Entry>, key: string) {
    exists i :: 0 <= i < |es| && es[i].key == Ascii(key)
  }

  predicate HasEncryptKeys(es: seq<Entry>) {
    HasKey(es, "V") && HasKey(es, "R") && HasKey(es, "O") && HasKey(es, "U") && HasKey(es, "P")
  }

  lemma {:induction false} HasKeyIff(es: seq<Entry>, key: string)
    ensures HasKey(es, key) <==> Get(es, Ascii(key)).Some?
    decreases |es|
  {
    if es == [] {
    } else {
      HasKeyIff(es[1..], key);
      if HasKey(es[1..], key) {
        var i :| 0 <= i < |es[1..]| && es[1..][i].key == Ascii(key);
        assert es[i + 1].key == Ascii(key);
      }
      if HasKey(es, key) && es[0].key != Ascii(key) {
        var i :| 0 <= i < |es| && es[i].key == Ascii(key);
        assert es[1..][i - 1].key == Ascii(key);
      }
    }
  }

  lemma {:induction false} PassedOverIff(m: Mode, c: Settings, n: Node)
    ensures IsPassedOver(m, c, n) <==> PassedOver(m, c, n)
  {
    match n
    case Indirect(_, _, v) =>
      if v.Dict? { EncryptKeysIff(v.entries); }
    case Stream(_, _, dict, _) =>
      NamesAre();
      MoreNames();
      HasNameIff(dict, "Type", "XRef");
  }

  lemma {:induction false} EncryptKeysIff(es: seq<Entry>)
    ensures HasEncryptKeys(es) <==> LooksLikeEncrypt(Dict(es))
  {
    HasKeyIff(es, "V");
    HasKeyIff(es, "R");
    HasKeyIff(es, "O");
    HasKeyIff(es, "U");
    HasKeyIff(es, "P");
    assert Ascii("V") == ENCRYPT_KEYS[0] && Ascii("R") == ENCRYPT_KEYS[1] && Ascii("O") == ENCRYPT_KEYS[2];
    assert Ascii("U") == ENCRYPT_KEYS[3] && Ascii("P") == ENCRYPT_KEYS[4];
  }

  /** The walk goes on from object x to object y. */
  ghost predicate Follows(m: Mode, c: Settings, s: Store, x: Id, y: Id) {
    && x in s && y in s && !IsPassedOver(m, c, s[y])
    && match s[x]
       case Indirect(_, _, v) => PointsTo(v, y)
       case Stream(_, _, dict, _) => !IsLeftAlone(m, c, s, dict) && PointsTo(Dict(dict), y)
  }

  lemma {:induction false} FollowsIff(m: Mode, c: Settings, s: Store, x: Id, y: Id)
    requires x in s
    ensures Follows(m, c, s, x, y) <==> y in Next(m, c, s, x)
  {
    if y in s { PassedOverIff(m, c, s[y]); }
    match s[x]
    case Indirect(_, _, v) => PointsToIff(v, y);
    case Stream(_, _, dict, _) =>
      LeftAloneIff(m, c, s, dict);
      PointsToIff(Dict(dict), y);
  }

  /** The walk from a direct object comes to the objects of a trail one after the other. */
  ghost predicate IsTrail(m: Mode, c: Settings, s: Store, v: Val, trail: seq<Id>) {
    && trail != [] && trail[0] in s && !IsPassedOver(m, c, s[trail[0]]) && PointsTo(v, trail[0])
    && forall i :: 0 <= i < |trail| - 1 ==> Follows(m, c, s, trail[i], trail[i + 1])
  }

  ghost predicate HasTrail(m: Mode, c: Settings, s: Store, v: Val, id: Id) {
    exists trail :: IsTrail(m, c, s, v, trail) && trail[|trail| - 1] == id
  }

  lemma {:induction false} EnteredIff(m: Mode, c: Settings, s: Store, v: Val, id: Id)
    ensures id in Entered(m, c, s, Ptrs(v)) <==> id in s && !IsPassedOver(m, c, s[id]) && PointsTo(v, id)
  {
    PointsToIff(v, id);
    if id in s { PassedOverIff(m, c, s[id]); }
  }

  lemma {:induction false} TrailGrows(m: Mode, c: Settings, s: Store, v: Val, x: Id, y: Id)
    requires HasTrail(m, c, s, v, x) && Follows(m, c, s, x, y)
    ensures HasTrail(m, c, s, v, y)
  {
    var trail :| IsTrail(m, c, s, v, trail) && trail[|trail| - 1] == x;
    var more := trail + [y];
    forall i | 0 <= i < |more| - 1 ensures Follows(m, c, s, more[i], more[i + 1]) {
      if i < |trail| - 1 { assert more[i] == trail[i] && more[i + 1] == trail[i + 1]; }
    }
    assert IsTrail(m, c, s, v, more) && more[|more| - 1] == y;
  }

  lemma {:induction false} TrailIsReached(m: Mode, c: Settings, s: Store, v: Val, trail: seq<Id>)
    requires IsTrail(m, c, s, v, trail)
    ensures trail[|trail| - 1] in Reach(m, c, s, Ptrs(v))
    decreases |trail|
  {
    ReachIsClosed(m, c, s, Ptrs(v));
    if |trail| == 1 {
      EnteredIff(m, c, s, v, trail[0]);
    } else {
      var x, y := trail[|trail| - 2], trail[|trail| - 1];
      TrailIsReached(m, c, s, v, trail[..|trail| - 1]);
      assert Follows(m, c, s, trail[|trail| - 2], trail[|trail| - 2 + 1]);
      FollowsIff(m, c, s, x, y);
    }
  }

  /** The walk reaches exactly the objects at the end of a trail. */
  lemma {:induction false} ReachIff(m: Mode, c: Settings, s: Store, v: Val, id: Id)
    ensures id in Reach(m, c, s, Ptrs(v)) <==> HasTrail(m, c, s, v, id)
  {
    forall trail | IsTrail(m, c, s, v, trail) && trail[|trail| - 1] == id ensures id in Reach(m, c, s, Ptrs(v)) {
      TrailIsReached(m, c, s, v, trail);
    }
    var all := set x | x in s && HasTrail(m, c, s, v, x);
    forall x | x in all ensures Next(m, c, s, x) <= all {
      forall y | y in Next(m, c, s, x) ensures y in all {
        FollowsIff(m, c, s, x, y);
        TrailGrows(m, c, s, v, x, y);
      }
    }
    forall x | x in Entered(m, c, s, Ptrs(v)) ensures x in all {
      EnteredIff(m, c, s, v, x);
      assert IsTrail(m, c, s, v, [x]) && [x][|[x]| - 1] == x;
    }
    ReachIsLeast(m, c, s, Ptrs(v), all);
  }

  /** Behind every direct object: the objects to which a trail leads are walked, and no other is touched. */
  lemma {:induction false} EachObject(m: Mode, c: Settings, s: Store, v: Val, id: Id)
    requires id in s
    ensures var n' := Mixed(m, c, s, Reach(m, c, s, Ptrs(v)))[id];
            if HasTrail(m, c, s, v, id) then IsNodeWalked(m, c, s, id, s[id], n') else n' == s[id]
  {
    ReachIff(m, c, s, v, id);
    NodeWalked(m, c, s, id, s[id]);
  }
}
