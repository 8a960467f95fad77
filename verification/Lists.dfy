/** Linked lists, as the sequences their pointers spell. */
module Lists {

  /** The null pointer; every other pointer is the index or address of what it points to. */
  const NULL: int := -1

  ghost predicate NoDup<T>(s: seq<T>) {
    forall i, j | 0 <= i < j < |s| :: s[i] != s[j]
  }

  /** The pointer at a place of the list, NULL before its start and after its end. */
  function At(l: seq<int>, i: int): int { if 0 <= i < |l| then l[i] else NULL }
}
