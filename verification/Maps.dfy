/** Maps that read as zero where they hold nothing. */
module Maps {
  function Get<K>(m: map<K, int>, k: K): int {
    if k in m then m[k] else 0
  }
}
