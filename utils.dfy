/** The dictionary helper of src/utils/utils.py. */
module Utils {

  /**
    `limpar_dict_seguro`: a copy of `d` without the sensitive keys. Dafny maps are values, so
    the caller's dictionary is left as it was, like the copy the comprehension builds.
   */
  function WithoutSensitive<V>(d: map<string, V>, sensitive: set<string>): (r: map<string, V>)
    ensures r.Keys == d.Keys - sensitive
    ensures forall k :: k in r ==> r[k] == d[k]
  {
    map k | k in d && k !in sensitive :: d[k]
  }

  /** Cleaning an already cleaned dictionary changes nothing. */
  lemma WithoutSensitiveIdempotent<V>(d: map<string, V>, sensitive: set<string>)
    ensures WithoutSensitive(WithoutSensitive(d, sensitive), sensitive) == WithoutSensitive(d, sensitive)
  {
  }

  /** With nothing sensitive the copy equals the input. */
  lemma WithoutNothing<V>(d: map<string, V>)
    ensures WithoutSensitive(d, {}) == d
  {
  }
}
