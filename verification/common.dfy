/** Shared vocabulary of the model: optional values, results, HTTP statuses,
    the requesting user, and small facts about sequences. */
module Common {

  datatype Option<+T> = None | Some(value: T)

  /** The outcome of a check that either passes a value through or fails
      with a reason (a validation error, a 404, ...). */
  datatype Result<+T, +E> = Success(value: T) | Failure(error: E)

  /** The HTTP status codes the views answer with. */
  datatype Status = Ok200 | Created201 | NoContent204 | BadRequest400 | NotFound404

  /** Who sends a request: the anonymous user, or a signed-in user with a
      primary key and the staff flag. */
  datatype Requester = Anonymous | Member(id: nat, isStaff: bool) {
    predicate IsAuthenticated() { Member? }
  }

  /** Python's `dict.get(key, default)`: the value stored under `key`, or
      `default` when the key is absent. */
  function GetOr<K, V>(m: map<K, V>, key: K, default: V): (r: V)
    ensures key in m ==> r == m[key]
    ensures key !in m ==> r == default
  {
    if key in m then m[key] else default
  }

  /** Storing under a key the value it already holds leaves the mapping
      as it was. */
  lemma StoreHeldValue<K, V>(m: map<K, V>, key: K, value: V)
    requires key in m && m[key] == value
    ensures m[key := value] == m
  {
    assert m[key := value].Keys == m.Keys;
  }

  /** No element occurs twice. */
  predicate Distinct<T(==)>(s: seq<T>) {
    forall i, j :: 0 <= i < j < |s| ==> s[i] != s[j]
  }

  /** The set of elements of a sequence, as Python's `set(list)`. */
  function ToSet<T(!new)>(s: seq<T>): (r: set<T>)
    ensures forall x :: x in r <==> x in s
  {
    set x | x in s
  }

  lemma {:induction false} ToSetCardinalityBound<T(!new)>(s: seq<T>)
    ensures |ToSet(s)| <= |s|
  {
    if s != [] {
      ToSetCardinalityBound(s[1..]);
      assert ToSet(s) == {s[0]} + ToSet(s[1..]);
    }
  }

  /** `len(s) == len(set(s))` holds exactly when `s` has no repeated element:
      the duplicate checks of the source compare these two lengths. */
  lemma {:induction false} DistinctIffSameCardinality<T(!new)>(s: seq<T>)
    ensures |ToSet(s)| == |s| <==> Distinct(s)
  {
    if s == [] {
    } else {
      var t := s[1..];
      DistinctIffSameCardinality(t);
      ToSetCardinalityBound(t);
      assert ToSet(s) == {s[0]} + ToSet(t);
      if s[0] in t {
        assert ToSet(s) == ToSet(t);
        var k :| 0 <= k < |t| && t[k] == s[0];
        assert s[0] == s[k + 1];
      } else {
        assert |ToSet(s)| == 1 + |ToSet(t)|;
        if Distinct(t) {
          forall i, j | 0 <= i < j < |s| ensures s[i] != s[j] {
            if i > 0 {
              assert s[i] == t[i - 1] && s[j] == t[j - 1];
            } else {
              assert s[j] == t[j - 1];
            }
          }
        } else {
          var i, j :| 0 <= i < j < |t| && t[i] == t[j];
          assert s[i + 1] == s[j + 1];
        }
      }
    }
  }

  /** Keeps the elements of `s` that satisfy `p`, in their order. */
  function Filter<T(!new)>(p: T -> bool, s: seq<T>): (r: seq<T>)
    ensures |r| <= |s|
    ensures forall x :: x in r <==> x in s && p(x)
  {
    if s == [] then []
    else (if p(s[0]) then [s[0]] else []) + Filter(p, s[1..])
  }

  /** Filtering by `p` and by its negation `q` splits the input: every
      element lands in exactly one of the two results, as often as it
      occurs. */
  lemma {:induction false} FilterPartition<T(!new)>(p: T -> bool, q: T -> bool, s: seq<T>)
    requires forall x :: q(x) == !p(x)
    ensures multiset(Filter(p, s)) + multiset(Filter(q, s)) == multiset(s)
  {
    if s != [] {
      FilterPartition(p, q, s[1..]);
      var h := [s[0]];
      var a, b := Filter(p, s[1..]), Filter(q, s[1..]);
      assert s == h + s[1..];
      assert multiset(s) == multiset(h) + multiset(a) + multiset(b);
      if p(s[0]) {
        assert Filter(p, s) == h + a;
        assert multiset(Filter(p, s)) == multiset(h) + multiset(a);
        assert Filter(q, s) == b;
      } else {
        assert Filter(p, s) == a;
        assert Filter(q, s) == h + b;
        assert multiset(Filter(q, s)) == multiset(h) + multiset(b);
      }
    }
  }

  /** Filters by predicates that agree on the input give the same result. */
  lemma {:induction false} FilterCongruent<T(!new)>(p: T -> bool, q: T -> bool, s: seq<T>)
    requires forall i :: 0 <= i < |s| ==> p(s[i]) == q(s[i])
    ensures Filter(p, s) == Filter(q, s)
  {
    if s != [] {
      FilterCongruent(p, q, s[1..]);
    }
  }

  /** A filter every element passes keeps the whole input ... */
  lemma {:induction false} FilterAll<T(!new)>(p: T -> bool, s: seq<T>)
    requires forall i :: 0 <= i < |s| ==> p(s[i])
    ensures Filter(p, s) == s
  {
    if s != [] {
      FilterAll(p, s[1..]);
      assert [s[0]] + s[1..] == s;
    }
  }

  /** ... and one no element passes keeps nothing. */
  lemma {:induction false} FilterNone<T(!new)>(p: T -> bool, s: seq<T>)
    requires forall i :: 0 <= i < |s| ==> !p(s[i])
    ensures Filter(p, s) == []
  {
    if s != [] {
      FilterNone(p, s[1..]);
    }
  }

  lemma {:induction false} FilterOfDistinctIsDistinct<T(!new)>(p: T -> bool, s: seq<T>)
    requires Distinct(s)
    ensures Distinct(Filter(p, s))
  {
    if s != [] {
      assert Distinct(s[1..]) by {
        forall i, j | 0 <= i < j < |s[1..]| ensures s[1..][i] != s[1..][j] {
          assert s[1..][i] == s[i + 1] && s[1..][j] == s[j + 1];
        }
      }
      FilterOfDistinctIsDistinct(p, s[1..]);
    }
  }

  /** SQL `DISTINCT` as the model reads it: the first occurrence of every
      element is kept, later repeats are dropped. */
  function Dedup<T(==,!new)>(s: seq<T>): (r: seq<T>)
    ensures Distinct(r)
    ensures forall x :: x in r <==> x in s
    decreases |s|
  {
    if s == [] then []
    else
      var d := Dedup(s[..|s| - 1]);
      assert forall x :: x in s <==> x in s[..|s| - 1] || x == s[|s| - 1];
      if s[|s| - 1] in d then d else d + [s[|s| - 1]]
  }

  /** On input that has no repeats, `DISTINCT` changes nothing. */
  lemma {:induction false} DedupOfDistinct<T(!new)>(s: seq<T>)
    requires Distinct(s)
    ensures Dedup(s) == s
    decreases |s|
  {
    if s != [] {
      var p := s[..|s| - 1];
      assert Distinct(p);
      DedupOfDistinct(p);
      assert s[|s| - 1] !in p;
      assert p + [s[|s| - 1]] == s;
    }
  }
}
