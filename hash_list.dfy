/** A table from a hash to the string it was computed from. */
module HashLists {
  import opened Wrappers

  class HashList<K(==)> {
    /** The dictionary behind the table. The list aggregator writes it directly, without Add. */
    var lookup: map<K, string>

    /** A new, empty table; the shared Dummy instance is one of these. */
    constructor ()
      ensures lookup == map[]
      ensures forall k :: !Contains(k) && Get(k) == None
    {
      lookup := map[];
    }

    /** Dictionary.Add: inserts a new key, raises on one already present. */
    method Add(index: K, value: string) returns (r: Result<()>)
      modifies this
      ensures old(index in lookup) ==> r == Err(DuplicateKey) && lookup == old(lookup)
      ensures old(index !in lookup) ==> r == Ok(()) && lookup == old(lookup)[index := value]
    {
      if index in lookup {
        return Err(DuplicateKey);
      }
      lookup := lookup[index := value];
      r := Ok(());
    }

    predicate Contains(index: K)
      reads this
    {
      index in lookup
    }

    /** The indexer: the stored string, None (null) for a key that is not there. */
    function Get(index: K): (r: Option<string>)
      reads this
      ensures r.None? <==> !Contains(index)
      ensures r.Some? ==> r.value == lookup[index]
    {
      if index in lookup then Some(lookup[index]) else None
    }

    /** GetStrings: the stored strings, one per key, in an unspecified key order (keys). */
    method GetStrings() returns (values: seq<string>, ghost keys: seq<K>)
      ensures |values| == |keys| == |lookup|
      ensures forall i :: 0 <= i < |keys| ==> keys[i] in lookup && values[i] == lookup[keys[i]]
      ensures forall i, j :: 0 <= i < j < |keys| ==> keys[i] != keys[j]
      ensures forall k :: k in lookup ==> k in keys
      ensures forall v :: v in values <==> v in lookup.Values
    {
      var rest := lookup.Keys;
      values, keys := [], [];
      while rest != {}
        invariant rest <= lookup.Keys
        invariant |values| == |keys| && |keys| + |rest| == |lookup|
        invariant forall i :: 0 <= i < |keys| ==> keys[i] in lookup && keys[i] !in rest && values[i] == lookup[keys[i]]
        invariant forall i, j :: 0 <= i < j < |keys| ==> keys[i] != keys[j]
        invariant forall k :: k in lookup ==> k in rest || k in keys
        decreases |rest|
      {
        var k :| k in rest;
        values, keys := values + [lookup[k]], keys + [k];
        rest := rest - {k};
      }
      forall v | v in lookup.Values ensures v in values {
        var k :| k in lookup && lookup[k] == v;
        var i :| 0 <= i < |keys| && keys[i] == k;
        assert values[i] == v;
      }
    }
  }
}
