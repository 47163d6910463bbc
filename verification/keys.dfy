/** Object keys: the string tests the handler filters with and the key under
    which an archive's index is stored. */
module Keys {
  import opened Wrappers

  /** The prefix of every creation event name. */
  const CreatedPrefix: string := "ObjectCreated"

  /** The extension of the archives that get indexed. */
  const CarSuffix: string := ".car"

  /** The extension appended to an archive key to name its index. */
  const IndexSuffix: string := ".idx"

  /** JavaScript's `s.startsWith(prefix)`. */
  predicate StartsWith(s: string, prefix: string) {
    prefix <= s
  }

  /** JavaScript's `s.endsWith(suffix)`. */
  predicate EndsWith(s: string, suffix: string) {
    |suffix| <= |s| && s[|s| - |suffix|..] == suffix
  }

  /** `startsWith` holds exactly when the string is the prefix followed by
      something. */
  lemma StartsWithIffPrefixed(s: string, prefix: string)
    ensures StartsWith(s, prefix) <==> exists rest :: s == prefix + rest
  {
    if StartsWith(s, prefix) {
      assert s == prefix + s[|prefix|..];
    }
  }

  /** `endsWith` holds exactly when the string is something followed by the
      suffix. */
  lemma EndsWithIffSuffixed(s: string, suffix: string)
    ensures EndsWith(s, suffix) <==> exists front :: s == front + suffix
  {
    if EndsWith(s, suffix) {
      assert s == s[..|s| - |suffix|] + suffix;
    }
    if exists front :: s == front + suffix {
      var front :| s == front + suffix;
      assert s[|s| - |suffix|..] == suffix;
    }
  }

  /** The key the index of the archive stored under `key` is written to. */
  function DerivedKey(key: string): (k: string)
    ensures StartsWith(k, key) && EndsWith(k, IndexSuffix)
    ensures |k| == |key| + |IndexSuffix|
  {
    key + IndexSuffix
  }

  /** The archive key an index key was derived from, if it is one. */
  function SourceKey(indexKey: string): (r: Option<string>)
    ensures r.Some? <==> EndsWith(indexKey, IndexSuffix)
  {
    if EndsWith(indexKey, IndexSuffix) then Some(indexKey[..|indexKey| - |IndexSuffix|]) else None
  }

  /** Deriving the index key only appends the suffix: the archive key can be
      read back from it, and every key it can be read back from is derived. */
  lemma DerivedKeyRoundTrip(key: string, indexKey: string)
    ensures SourceKey(DerivedKey(key)) == Some(key)
    ensures SourceKey(indexKey) == Some(key) ==> DerivedKey(key) == indexKey
  {
  }

  /** Distinct archives get distinct index keys. */
  lemma DerivedKeyInjective(a: string, b: string)
    ensures DerivedKey(a) == DerivedKey(b) ==> a == b
  {
  }

  /** An index key never ends in the archive extension, so writing the index
      cannot itself be selected for indexing. */
  lemma DerivedKeysAreNotCar()
    ensures forall key :: !EndsWith(DerivedKey(key), CarSuffix)
  {
  }
}
