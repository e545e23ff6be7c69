/** A JavaScript `Set`: no duplicates, iterated in insertion order. It is kept as a
    sequence so that `Array.from(set)` is exactly the sequence. */
module OrderedSet {

  predicate NoDup<T(==)>(s: seq<T>)
  {
    forall i, j :: 0 <= i < j < |s| ==> s[i] != s[j]
  }

  function Elements<T(==)>(s: seq<T>): set<T>
  {
    set x | x in s
  }

  /** `Set.prototype.add`: an element already present keeps its place, a new one goes last. */
  function Add<T(==,!new)>(s: seq<T>, x: T): (r: seq<T>)
    ensures forall y :: y in r <==> y in s || y == x
    ensures Elements(r) == Elements(s) + {x}
    ensures NoDup(s) ==> NoDup(r)
    ensures x in s ==> r == s
    ensures x !in s ==> r == s + [x]
  {
    if x in s then s else s + [x]
  }

  /** `Set.prototype.delete`: removes `x`, keeping the order of the others. */
  function Delete<T(==,!new)>(s: seq<T>, x: T): (r: seq<T>)
    ensures forall y :: y in r <==> y in s && y != x
    ensures Elements(r) == Elements(s) - {x}
    ensures NoDup(s) ==> NoDup(r)
    ensures x !in s ==> r == s
    ensures |r| <= |s|
  {
    if s == [] then []
    else if s[0] == x then Delete(s[1..], x)
    else
      var rest := Delete(s[1..], x);
      assert Elements(s) == {s[0]} + Elements(s[1..]);
      assert Elements([s[0]] + rest) == {s[0]} + Elements(rest);
      assert NoDup(s) ==> s[0] !in Elements(s[1..]);
      [s[0]] + rest
  }

  /** Deleting from a sequence without duplicates removes exactly one place: the rest keeps its order. */
  lemma {:induction false} DeleteAt<T(!new)>(s: seq<T>, k: nat)
    requires NoDup(s) && k < |s|
    ensures Delete(s, s[k]) == s[..k] + s[k + 1..]
  {
    if k > 0 {
      DeleteAt(s[1..], k - 1);
      assert s[1..][..k - 1] + s[1..][k..] == s[1..k] + s[k + 1..];
      assert [s[0]] + s[1..k] == s[..k];
    } else {
      assert s[0] !in s[1..];
    }
  }

  /** Adding a new element and deleting it again gives back the same sequence. */
  lemma {:induction false} DeleteAdd<T(!new)>(s: seq<T>, x: T)
    requires x !in s
    ensures Delete(Add(s, x), x) == s
  {
    DeleteAppend(s, x);
  }

  lemma {:induction false} DeleteAppend<T(!new)>(s: seq<T>, x: T)
    requires x !in s
    ensures Delete(s + [x], x) == s
  {
    if s != [] {
      assert (s + [x])[1..] == s[1..] + [x];
      DeleteAppend(s[1..], x);
    }
  }

  /** Deleting a present element and adding it back keeps the elements (and no duplicates)
      but moves that element to the end: the insertion order changes. */
  lemma AddDelete<T(!new)>(s: seq<T>, x: T)
    requires NoDup(s) && x in s
    ensures Add(Delete(s, x), x) == Delete(s, x) + [x]
    ensures Elements(Add(Delete(s, x), x)) == Elements(s)
    ensures NoDup(Add(Delete(s, x), x))
  {
  }

  /** Two sequences without duplicates and without a common element concatenate
      to a sequence without duplicates. */
  lemma NoDupConcat<T>(a: seq<T>, b: seq<T>)
    requires NoDup(a) && NoDup(b)
    requires forall x :: x in b ==> x !in a
    ensures NoDup(a + b)
  {
    forall i, j | 0 <= i < j < |a + b| ensures (a + b)[i] != (a + b)[j] {
      if i < |a| <= j {
        assert (a + b)[j] == b[j - |a|];
        assert (a + b)[i] in a;
      }
    }
  }
}
