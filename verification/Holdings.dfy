/** What several threads hold together. */
module Holdings {

  /** Everything held by any of the holders. */
  function Total<T>(held: seq<multiset<T>>): multiset<T> {
    if held == [] then multiset{} else held[0] + Total(held[1..])
  }

  /** Changing what one holder has changes the total by exactly that. */
  lemma {:induction false} TotalUpdate<T>(held: seq<multiset<T>>, i: nat, m: multiset<T>, x: T)
    requires i < |held|
    ensures Total(held[i := m])[x] + held[i][x] == Total(held)[x] + m[x]
    ensures held[i][x] <= Total(held)[x]
  {
    if i == 0 {
      assert held[0 := m][1..] == held[1..];
    } else {
      assert held[i := m][1..] == held[1..][i - 1 := m];
      TotalUpdate(held[1..], i - 1, m, x);
    }
  }

  /** Distinct holders hold disjoint parts of the total. */
  lemma {:induction false} TwoHolders<T>(held: seq<multiset<T>>, i: nat, j: nat, x: T)
    requires i < j < |held|
    ensures held[i][x] + held[j][x] <= Total(held)[x]
  {
    TotalUpdate(held, i, multiset{}, x);
    TotalUpdate(held[i := multiset{}], j, multiset{}, x);
  }

  lemma {:induction false} NothingHeld<T>(held: seq<multiset<T>>)
    requires forall i | 0 <= i < |held| :: held[i] == multiset{}
    ensures Total(held) == multiset{}
  {
    if held != [] { NothingHeld(held[1..]); }
  }
}
