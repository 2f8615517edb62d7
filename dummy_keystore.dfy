/** The in-memory key store: a map from byte keys to serialised byte values. */
module DummyKeystore {
  import opened Types

  /** The key store's own error enum. */
  datatype KeystoreError =
    | UnsupportedValueTypeBytes
    | UnsupportedMethod
    | SerializationError
    | DeserializationError

  /** `Result<(), Error>` of the key store. */
  datatype KeystoreOutcome = Done | Failed(error: KeystoreError)

  /** A value type's conversion to and from stored bytes; either direction may fail. */
  datatype Codec<!V> = Codec(toBytes: V -> Option<Bytes>, fromBytes: Bytes -> Option<V>)

  class Keystore {
    var values: map<Bytes, Bytes>

    /** `Default`: an empty store. */
    constructor ()
      ensures values == map[]
    {
      values := map[];
    }

    /** `store`: serialise `v` and map `k` to it, replacing any earlier value. A failed
        serialisation leaves the store as it was. */
    method Store<V>(k: Bytes, v: V, codec: Codec<V>) returns (r: KeystoreOutcome)
      modifies this
      ensures codec.toBytes(v).None? ==> r == Failed(KeystoreError.SerializationError) && values == old(values)
      ensures codec.toBytes(v).Some? ==> r == Done && values == old(values)[k := codec.toBytes(v).value]
      ensures forall k' :: k' != k ==> Read(k', codec) == old(Read(k', codec))
      ensures r == Done && codec.fromBytes(codec.toBytes(v).value) == Some(v) ==> Read(k, codec) == Some(v)
    {
      var value := codec.toBytes(v);
      if value.None? {
        return Failed(KeystoreError.SerializationError);
      }
      values := values[k := value.value];
      r := Done;
    }

    /** `read`: nothing for an absent key; otherwise the deserialised value, or nothing when
        deserialisation fails. */
    function Read<V>(k: Bytes, codec: Codec<V>): (r: Option<V>)
      reads this
      ensures k !in values ==> r == None
      ensures k in values ==> r == codec.fromBytes(values[k])
    {
      if k in values then codec.fromBytes(values[k]) else None
    }

    /** `delete`: remove `k`; succeeds whether or not `k` was present. */
    method Delete(k: Bytes) returns (r: KeystoreOutcome)
      modifies this
      ensures r == Done && values == old(values) - {k}
      ensures k !in values
      ensures forall k' :: k' != k ==> (k' in values <==> k' in old(values))
      ensures forall k' :: k' != k && k' in values ==> values[k'] == old(values)[k']
    {
      values := values - {k};
      r := Done;
    }
  }
}
