/** Keys, values and the comparison the runtime is parameterised by. */
module KeyValue {

  /** A `void *` handed around by the runtime without being looked into. */
  type Word = int

  /** A key. Only the sign of the user's key_cmp is ever used, so a key is its place `rank` in the
      order key_cmp defines (any countable total preorder embeds in the reals) together with the
      identity that tells apart keys comparing equal. */
  datatype Key = Key(rank: real, ident: int)

  datatype Pair = Pair(key: Key, val: Word)

  /** The user's key_cmp: negative, zero or positive. */
  function KeyCmp(a: Key, b: Key): int {
    if a.rank < b.rank then -1 else if a.rank > b.rank then 1 else 0
  }

  ghost predicate SortedPairs(s: seq<Pair>) {
    forall i, j | 0 <= i < j < |s| :: s[i].key.rank <= s[j].key.rank
  }
}
