/**
 * A JPA table as a map from identity value to row, with an identity
 * counter. `Rows` lists the rows in id order, which is the order a query
 * without ORDER BY is taken to return.
 */
module Table {

  /** The rows with ids 1..n, in id order. */
  function Rows<T>(m: map<nat, T>, n: nat): (r: seq<T>)
    ensures |r| <= n
    ensures forall id :: 1 <= id <= n && id in m ==> m[id] in r
    ensures forall x :: x in r ==> exists id :: 1 <= id <= n && id in m && m[id] == x
  {
    if n == 0 then [] else Rows(m, n - 1) + (if n in m then [m[n]] else [])
  }

  /** A map whose keys are all below the counter `next`. */
  predicate Bounded<T>(m: map<nat, T>, next: nat) {
    forall id :: id in m ==> 1 <= id < next
  }

  /** Storing a row under the next identity value appends it to the table. */
  lemma {:induction false} RowsAppend<T>(m: map<nat, T>, n: nat, v: T)
    requires Bounded(m, n + 1)
    ensures n + 1 !in m && Bounded(m[n + 1 := v], n + 2)
    ensures Rows(m[n + 1 := v], n + 1) == Rows(m, n) + [v]
  {
    RowsAgree(m, m[n + 1 := v], n);
  }

  /** Rows only depend on the entries with ids 1..n. */
  lemma {:induction false} RowsAgree<T>(m: map<nat, T>, m': map<nat, T>, n: nat)
    requires forall id :: 1 <= id <= n ==> (id in m <==> id in m') && (id in m ==> m[id] == m'[id])
    ensures Rows(m, n) == Rows(m', n)
  {
    if n > 0 {
      RowsAgree(m, m', n - 1);
    }
  }

  /** The ids 1..n that are in use. */
  function IdsUpTo<T>(m: map<nat, T>, n: nat): set<nat> {
    set id | id in m && 1 <= id <= n
  }

  /** A table lists each of its rows once: as many rows as ids. */
  lemma RowsCount<T>(m: map<nat, T>, n: nat)
    requires Bounded(m, n + 1)
    ensures |Rows(m, n)| == |m.Keys|
  {
    RowsCountUpTo(m, n);
    assert IdsUpTo(m, n) == m.Keys;
  }

  lemma {:induction false} RowsCountUpTo<T>(m: map<nat, T>, n: nat)
    ensures |Rows(m, n)| == |IdsUpTo(m, n)|
  {
    if n == 0 {
      assert IdsUpTo(m, n) == {};
    } else {
      RowsCountUpTo(m, n - 1);
      RowsStep(m, n);
      IdsUpToStep(m, n);
    }
  }

  /** Raising the bound by one adds the row with the new id when there is one. */
  lemma RowsStep<T>(m: map<nat, T>, n: nat)
    requires n > 0
    ensures |Rows(m, n)| == |Rows(m, n - 1)| + (if n in m then 1 else 0)
  {
  }

  /** Raising the bound by one adds the new id when it is in use. */
  lemma IdsUpToStep<T>(m: map<nat, T>, n: nat)
    requires n > 0
    ensures |IdsUpTo(m, n)| == |IdsUpTo(m, n - 1)| + (if n in m then 1 else 0)
  {
    if n in m {
      assert n !in IdsUpTo(m, n - 1);
      assert IdsUpTo(m, n) == IdsUpTo(m, n - 1) + {n};
    } else {
      assert IdsUpTo(m, n) == IdsUpTo(m, n - 1);
    }
  }
}
