/** Lookup with a default, the way a Go map read returns the zero value
    of its element type for a missing key. */
module Maps {

  function Get<K, V>(m: map<K, V>, k: K, default: V): (v: V)
    ensures k in m ==> v == m[k]
    ensures k !in m ==> v == default
  {
    if k in m then m[k] else default
  }
}
