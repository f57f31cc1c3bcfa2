/** The user-to-object tables of the application: Follow (user, following),
    Favorite (user, recipe) and ShoppingCart (user, recipe). Each is a
    sequence of rows; the unique constraint on the pair is the invariant
    `Unique` that every operation is proved to keep. */
module Relation {
  import opened Common

  /** One row: `user` follows, favours or has in the cart `target`. */
  datatype Link = Link(user: nat, target: nat)

  type Table = seq<Link>

  /** At most one row per (user, target) pair. */
  predicate Unique(t: Table) {
    Distinct(t)
  }

  /** `filter(user=u, target=x).exists()`. */
  predicate Has(t: Table, l: Link) {
    l in t
  }

  /** The number of rows `filter(user=u, target=x).delete()` reports. */
  function CountOf(t: Table, l: Link): nat {
    multiset(t)[l]
  }

  /** `filter(user=u, target=x).delete()`: the rows of that pair go, the
      others stay in their order. */
  function Delete(t: Table, l: Link): (r: Table)
    ensures !Has(r, l)
    ensures forall x :: x in r ==> x in t
    ensures |r| + CountOf(t, l) == |t|
    ensures forall x :: x != l ==> multiset(r)[x] == multiset(t)[x]
  {
    if t == [] then []
    else
      assert t == [t[0]] + t[1..];
      var head: Table := if t[0] == l then [] else [t[0]];
      var rest := Delete(t[1..], l);
      assert multiset(t) == multiset([t[0]]) + multiset(t[1..]);
      assert multiset(head + rest) == multiset(head) + multiset(rest);
      head + rest
  }

  /** A row is there exactly when deleting its pair reports a positive count. */
  lemma CountPositiveIffHas(t: Table, l: Link)
    ensures CountOf(t, l) > 0 <==> Has(t, l)
  {
  }

  /** In a table that keeps the unique constraint, a delete removes at most
      one row. */
  lemma {:induction false} UniqueCountAtMostOne(t: Table, l: Link)
    requires Unique(t)
    ensures CountOf(t, l) <= 1
  {
    if t != [] {
      assert t == [t[0]] + t[1..];
      assert Unique(t[1..]) by {
        forall i, j | 0 <= i < j < |t[1..]| ensures t[1..][i] != t[1..][j] {
          assert t[1..][i] == t[i + 1] && t[1..][j] == t[j + 1];
        }
      }
      UniqueCountAtMostOne(t[1..], l);
    }
  }

  /** Adding a pair that is not yet present keeps the constraint. */
  lemma InsertKeepsUnique(t: Table, l: Link)
    requires Unique(t) && !Has(t, l)
    ensures Unique(t + [l])
  {
  }

  /** Deleting keeps the constraint. */
  lemma {:induction false} DeleteKeepsUnique(t: Table, l: Link)
    requires Unique(t)
    ensures Unique(Delete(t, l))
  {
    if t != [] {
      var rest := Delete(t[1..], l);
      assert Unique(t[1..]) by {
        forall i, j | 0 <= i < j < |t[1..]| ensures t[1..][i] != t[1..][j] {
          assert t[1..][i] == t[i + 1] && t[1..][j] == t[j + 1];
        }
      }
      DeleteKeepsUnique(t[1..], l);
      assert t[0] !in t[1..];
    }
  }

  /** Deleting a pair the table does not hold changes nothing. */
  lemma {:induction false} DeleteAbsent(t: Table, l: Link)
    requires !Has(t, l)
    ensures Delete(t, l) == t
  {
    if t != [] {
      DeleteAbsent(t[1..], l);
      assert [t[0]] + t[1..] == t;
    }
  }

  /** Deleting the pair just appended to a table that did not hold it gives
      back the table. */
  lemma {:induction false} DeleteAppended(t: Table, l: Link)
    requires !Has(t, l)
    ensures Delete(t + [l], l) == t
  {
    if t == [] {
      assert [] + [l] == [l];
    } else {
      assert (t + [l])[1..] == t[1..] + [l];
      DeleteAppended(t[1..], l);
      assert [t[0]] + t[1..] == t;
    }
  }
}
