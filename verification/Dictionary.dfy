/** PdfObjectDictionary of core/primitives.go: a key list and a map kept in step. */
module Dictionary {
  import opened Bytes
  import opened Objects

  ghost predicate InStep(keys: seq<Bytes>, dict: map<Bytes, Obj>) {
    && (forall i, j :: 0 <= i < j < |keys| ==> keys[i] != keys[j])
    && (forall k :: k in keys <==> k in dict)
  }

  ghost function Zip(keys: seq<Bytes>, dict: map<Bytes, Obj>): (es: seq<Entry>)
    requires InStep(keys, dict)
    ensures |es| == |keys| && DistinctKeys(es)
    ensures forall i :: 0 <= i < |es| ==> es[i] == Entry(keys[i], dict[keys[i]])
  {
    seq(|keys|, i requires 0 <= i < |keys| => Entry(keys[i], dict[keys[i]]))
  }

  class PdfObjectDictionary {
    var keys: seq<Bytes>
    var dict: map<Bytes, Obj>

    ghost predicate Valid()
      reads this
    {
      InStep(keys, dict)
    }

    ghost function Contents(): (es: seq<Entry>)
      requires Valid()
      reads this
    {
      Zip(keys, dict)
    }

    constructor ()
      ensures Valid() && Contents() == []
    {
      keys := [];
      dict := map[];
    }

    /** The entries in key order, as the loop of WriteString visits them. */
    method Entries() returns (es: seq<Entry>)
      requires Valid()
      ensures es == Contents()
    {
      es := [];
      for i := 0 to |keys|
        invariant es == Zip(keys, dict)[..i]
      {
        es := es + [Entry(keys[i], dict[keys[i]])];
      }
      WholeSlice(Zip(keys, dict));
    }

    method Set(key: Bytes, val: Obj)
      requires Valid()
      modifies this
      ensures Valid() && Contents() == Objects.Set(old(Contents()), key, val)
    {
      if key !in dict {
        AppendInStep(keys, dict, key, val);
        keys := keys + [key];
      } else {
        ghost var i :| 0 <= i < |keys| && keys[i] == key;
        ReplaceInStep(keys, dict, i, val);
      }
      dict := dict[key := val];
    }
  }

  lemma {:induction false} AppendInStep(keys: seq<Bytes>, dict: map<Bytes, Obj>, key: Bytes, val: Obj)
    requires InStep(keys, dict) && key !in dict
    ensures InStep(keys + [key], dict[key := val])
    ensures Zip(keys + [key], dict[key := val]) == Set(Zip(keys, dict), key, val)
  {
    var keys', dict' := keys + [key], dict[key := val];
    assert forall k :: k in keys' <==> k in keys || k == key;
    assert !HasKey(Zip(keys, dict), key);
    assert Zip(keys', dict') == Zip(keys, dict) + [Entry(key, val)];
  }

  lemma {:induction false} ReplaceInStep(keys: seq<Bytes>, dict: map<Bytes, Obj>, i: nat, val: Obj)
    requires InStep(keys, dict) && i < |keys|
    ensures InStep(keys, dict[keys[i] := val])
    ensures Zip(keys, dict[keys[i] := val]) == Set(Zip(keys, dict), keys[i], val)
  {
    assert keys[i] in dict;
    SetReplaces(Zip(keys, dict), i, val);
    assert Zip(keys, dict[keys[i] := val]) == Zip(keys, dict)[i := Entry(keys[i], val)];
  }

  lemma {:induction false} SetReplaces(es: seq<Entry>, i: nat, val: Obj)
    requires DistinctKeys(es) && i < |es|
    ensures Set(es, es[i].key, val) == es[i := Entry(es[i].key, val)]
  {
    var e := Entry(es[i].key, val);
    if i == 0 {
      assert es[0 := e] == [e] + es[1..];
    } else {
      assert es[0].key != es[i].key;
      SetReplaces(es[1..], i - 1, val);
      assert es[i := e] == [es[0]] + es[1..][i - 1 := e];
    }
  }
}
