/** The signing key a release tag carries: the default key or a named one. */
module Keys {
  import opened Base

  /** `keyId` is None for the default key. */
  datatype Key = Key(keyId: Option<string>)

  /** `Key::default()`. */
  function Default(): (k: Key)
    ensures IsDefault(k)
  {
    Key(None)
  }

  /** The constructor, with the id optional as in the source. */
  function New(keyId: Option<string>): (k: Key)
    ensures IsDefault(k) <==> keyId.None?
    ensures ToString(k) == (if keyId.Some? then keyId.value else "")
  {
    Key(keyId)
  }

  predicate IsDefault(k: Key)
    ensures IsDefault(k) ==> ToString(k) == ""
  {
    k.keyId.None?
  }

  /** The string cast: the id, or "" for the default key. */
  function ToString(k: Key): (r: string)
    ensures k.keyId.Some? ==> Key(Some(r)) == k
  {
    match k.keyId
    case None => ""
    case Some(id) => id
  }

  /** Two keys that are both named, or both default, are equal exactly when
      they print the same. The default key and the key named "" print the
      same but differ in IsDefault. */
  lemma ToStringDistinguishes(k1: Key, k2: Key)
    requires IsDefault(k1) == IsDefault(k2)
    ensures k1 == k2 <==> ToString(k1) == ToString(k2)
  {
  }
}
