/** An ordered list of Polaroid ids used as a stack: insertion order is stack
    order and the last id is the topmost ("active") card. Two updates act on
    it: append-if-absent (Firestore's `arrayUnion`, and the inspector's local
    `prev.includes(id) ? prev : [...prev, id]`) and remove-by-value
    (`ids.filter(id => id !== x)`). */
module IdList {

  predicate NoDuplicates(s: seq<string>) {
    forall i, j :: 0 <= i < j < |s| ==> s[i] != s[j]
  }

  /** Append `x` unless it is already present. */
  function AppendIfAbsent(s: seq<string>, x: string): (r: seq<string>)
    ensures x in r
    ensures x in s ==> r == s
    ensures x !in s ==> |r| == |s| + 1 && r[..|s|] == s && r[|s|] == x
  {
    if x in s then s else s + [x]
  }

  /** Remove every occurrence of `x`, keeping the order of the rest. */
  function RemoveAll(s: seq<string>, x: string): (r: seq<string>)
    ensures x !in r
    ensures |r| <= |s|
  {
    if s == [] then []
    else if s[0] == x then RemoveAll(s[1..], x) else [s[0]] + RemoveAll(s[1..], x)
  }

  /** Removal drops exactly the occurrences of `x`: every other value keeps
      its number of occurrences, and the length falls by the count of `x`. */
  lemma {:induction false} RemoveAllCounts(s: seq<string>, x: string)
    ensures forall y :: y != x ==> multiset(RemoveAll(s, x))[y] == multiset(s)[y]
    ensures |RemoveAll(s, x)| == |s| - multiset(s)[x]
  {
    if s != [] {
      RemoveAllCounts(s[1..], x);
      assert s == [s[0]] + s[1..];
      assert multiset(s) == multiset{s[0]} + multiset(s[1..]);
    }
  }

  /** Removal keeps relative order: it distributes over concatenation. */
  lemma {:induction false} RemoveAllAppend(a: seq<string>, b: seq<string>, x: string)
    ensures RemoveAll(a + b, x) == RemoveAll(a, x) + RemoveAll(b, x)
  {
    if a == [] {
      assert a + b == b;
    } else {
      var head := if a[0] == x then [] else [a[0]];
      assert (a + b)[0] == a[0] && (a + b)[1..] == a[1..] + b;
      assert RemoveAll(a + b, x) == head + RemoveAll(a[1..] + b, x);
      assert RemoveAll(a, x) == head + RemoveAll(a[1..], x);
      RemoveAllAppend(a[1..], b, x);
    }
  }

  /** Removing an absent value changes nothing. */
  lemma {:induction false} RemoveAllAbsent(s: seq<string>, x: string)
    requires x !in s
    ensures RemoveAll(s, x) == s
  {
    if s != [] {
      assert x !in s[1..];
      RemoveAllAbsent(s[1..], x);
      assert s == [s[0]] + s[1..];
    }
  }

  /** Appending is idempotent: attaching the same id twice leaves exactly one
      occurrence of it. */
  lemma AppendIfAbsentTwice(s: seq<string>, x: string)
    requires NoDuplicates(s)
    ensures AppendIfAbsent(AppendIfAbsent(s, x), x) == AppendIfAbsent(s, x)
    ensures NoDuplicates(AppendIfAbsent(s, x))
    ensures multiset(AppendIfAbsent(AppendIfAbsent(s, x), x))[x] == 1
  {
    var r := AppendIfAbsent(s, x);
    if x in s {
      var k :| 0 <= k < |s| && s[k] == x;
      MultisetCountOne(s, k);
    } else {
      MultisetCountOne(r, |s|);
    }
  }

  /** In a duplicate-free list, the element at `k` occurs exactly once. */
  lemma {:induction false} MultisetCountOne(s: seq<string>, k: nat)
    requires NoDuplicates(s) && k < |s|
    ensures multiset(s)[s[k]] == 1
  {
    assert s == s[..k] + [s[k]] + s[k + 1..];
    assert s[k] !in s[..k];
    assert s[k] !in s[k + 1..];
    assert multiset(s) == multiset(s[..k]) + multiset{s[k]} + multiset(s[k + 1..]);
  }

  /** Removing a value keeps a duplicate-free list duplicate-free. */
  lemma {:induction false} RemoveAllNoDuplicates(s: seq<string>, x: string)
    requires NoDuplicates(s)
    ensures NoDuplicates(RemoveAll(s, x))
  {
    if s != [] {
      RemoveAllNoDuplicates(s[1..], x);
      var rest := RemoveAll(s[1..], x);
      if s[0] != x {
        assert s[0] !in s[1..];
        RemoveAllCounts(s[1..], x);
        assert multiset(rest)[s[0]] == multiset(s[1..])[s[0]] == 0;
        assert s[0] !in rest;
      }
    }
  }

  /** Attaching an id and then deleting it returns the list to what removal
      alone would give: the append leaves no trace once the id is removed. */
  lemma RemoveAfterAppend(s: seq<string>, x: string)
    ensures RemoveAll(AppendIfAbsent(s, x), x) == RemoveAll(s, x)
  {
    if x !in s {
      RemoveAllAppend(s, [x], x);
      assert RemoveAll([x], x) == [];
    }
  }
}
