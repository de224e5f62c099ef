/** Python's `sorted(…, key=…)` and `list.sort(key=…)`, and what sorting determines. */
module Sorting {
  import opened Orders

  /** No later element's key is below an earlier element's key. */
  ghost predicate SortedBy<T>(s: seq<T>, key: T -> Key) {
    forall i, j :: 0 <= i < j < |s| ==> !Less(key(s[j]), key(s[i]))
  }

  /** Keys are strictly increasing. */
  ghost predicate StrictlySortedBy<T>(s: seq<T>, key: T -> Key) {
    forall i, j :: 0 <= i < j < |s| ==> Less(key(s[i]), key(s[j]))
  }

  ghost predicate DistinctKeys<T>(s: seq<T>, key: T -> Key) {
    forall i, j :: 0 <= i < j < |s| ==> key(s[i]) != key(s[j])
  }

  ghost predicate NoDuplicates<T>(s: seq<T>) {
    forall i, j :: 0 <= i < j < |s| ==> s[i] != s[j]
  }

  /** Place `x` after every element whose key does not exceed its own. */
  function Insert<T>(x: T, s: seq<T>, key: T -> Key): (r: seq<T>)
    ensures multiset(r) == multiset{x} + multiset(s)
  {
    if s == [] then [x]
    else if Less(key(x), key(s[0])) then [x] + s
    else
      assert s == [s[0]] + s[1..];
      [s[0]] + Insert(x, s[1..], key)
  }

  /** The stable sort, one insertion at a time from the left. */
  function SortBy<T>(s: seq<T>, key: T -> Key): (r: seq<T>)
    ensures multiset(r) == multiset(s)
  {
    if s == [] then []
    else
      assert s == s[..|s| - 1] + [s[|s| - 1]];
      Insert(s[|s| - 1], SortBy(s[..|s| - 1], key), key)
  }

  lemma SameElements<T>(a: seq<T>, b: seq<T>)
    requires multiset(a) == multiset(b)
    ensures |a| == |b|
    ensures forall x :: x in a <==> x in b
  {
    assert |a| == |multiset(a)| && |b| == |multiset(b)|;
    forall x ensures x in a <==> x in b {
      assert x in a <==> x in multiset(a);
      assert x in b <==> x in multiset(b);
    }
  }

  lemma {:induction false} InsertSorted<T>(x: T, s: seq<T>, key: T -> Key)
    requires SortedBy(s, key)
    ensures SortedBy(Insert(x, s, key), key)
  {
    if s != [] {
      if Less(key(x), key(s[0])) {
        forall j | 0 <= j < |s| ensures !Less(key(s[j]), key(x)) {
          if Less(key(s[j]), key(x)) {
            Transitive(key(s[j]), key(x), key(s[0]));
            Trichotomy(key(s[0]), key(s[0]));
          }
        }
      } else {
        var rest := Insert(x, s[1..], key);
        InsertSorted(x, s[1..], key);
        forall j | 0 <= j < |rest| ensures !Less(key(rest[j]), key(s[0])) {
          assert rest[j] in multiset(rest);
          if rest[j] != x { assert rest[j] in s[1..]; }
        }
      }
    }
  }

  lemma {:induction false} SortBySorted<T>(s: seq<T>, key: T -> Key)
    ensures SortedBy(SortBy(s, key), key)
  {
    if s != [] {
      SortBySorted(s[..|s| - 1], key);
      InsertSorted(s[|s| - 1], SortBy(s[..|s| - 1], key), key);
    }
  }

  lemma TwoOccurrences<T>(s: seq<T>, i: nat, j: nat)
    requires i < j < |s| && s[i] == s[j]
    ensures multiset(s)[s[i]] >= 2
  {
    assert s == s[..j] + [s[j]] + s[j + 1..];
    assert s[i] in multiset(s[..j]);
  }

  lemma {:induction false} Multiplicity<T>(s: seq<T>, x: T)
    requires NoDuplicates(s)
    ensures multiset(s)[x] == if x in s then 1 else 0
  {
    if s != [] {
      Multiplicity(s[1..], x);
      assert s == [s[0]] + s[1..];
    }
  }

  /** A duplicate-free sequence is as long as its set of elements is large. */
  lemma {:induction false} SizeOfSequence<T>(s: seq<T>)
    requires NoDuplicates(s)
    ensures |(set x | x in s)| == |s|
  {
    if s != [] {
      SizeOfSequence(s[1..]);
      assert (set x | x in s) == {s[0]} + (set x | x in s[1..]);
    }
  }

  /** Two duplicate-free sequences with the same members are permutations. */
  lemma SameMembersSameMultiset<T>(a: seq<T>, b: seq<T>)
    requires NoDuplicates(a) && NoDuplicates(b)
    requires forall x :: x in a <==> x in b
    ensures multiset(a) == multiset(b)
  {
    forall x ensures multiset(a)[x] == multiset(b)[x] {
      Multiplicity(a, x);
      Multiplicity(b, x);
    }
  }

  lemma NoDuplicatesFromMultiset<T>(a: seq<T>, b: seq<T>)
    requires multiset(a) == multiset(b) && NoDuplicates(a)
    ensures NoDuplicates(b)
  {
    forall i, j | 0 <= i < j < |b| ensures b[i] != b[j] {
      if b[i] == b[j] {
        Multiplicity(a, b[i]);
        TwoOccurrences(b, i, j);
      }
    }
  }

  /** Distinctness is a property of the collection, not of the order it is in. */
  lemma DistinctUnderPermutation<T>(a: seq<T>, b: seq<T>, key: T -> Key)
    requires multiset(a) == multiset(b) && DistinctKeys(a, key)
    ensures DistinctKeys(b, key)
  {
    NoDuplicatesFromMultiset(a, b);
    SameElements(a, b);
    forall i, j | 0 <= i < j < |b| ensures key(b[i]) != key(b[j]) {
      assert b[i] in b && b[j] in b && b[i] != b[j];
    }
  }

  /** With distinct keys the sort leaves the keys strictly increasing. */
  lemma SortByStrict<T>(s: seq<T>, key: T -> Key)
    requires DistinctKeys(s, key)
    ensures StrictlySortedBy(SortBy(s, key), key)
  {
    var r := SortBy(s, key);
    SortBySorted(s, key);
    DistinctUnderPermutation(s, r, key);
    forall i, j | 0 <= i < j < |r| ensures Less(key(r[i]), key(r[j])) {
      Trichotomy(key(r[i]), key(r[j]));
    }
  }

  lemma StrictSortSameHead<T>(a: seq<T>, b: seq<T>, key: T -> Key)
    requires a != [] && b != []
    requires forall x :: x in a <==> x in b
    requires StrictlySortedBy(a, key) && StrictlySortedBy(b, key)
    ensures a[0] == b[0]
  {
    assert b[0] in a && a[0] in b;
    Trichotomy(key(a[0]), key(b[0]));
  }

  /** A strictly sorted arrangement of a collection is the only one. */
  lemma {:induction false} StrictSortUnique<T>(a: seq<T>, b: seq<T>, key: T -> Key)
    requires multiset(a) == multiset(b)
    requires StrictlySortedBy(a, key) && StrictlySortedBy(b, key)
    ensures a == b
  {
    SameElements(a, b);
    if a != [] {
      StrictSortSameHead(a, b, key);
      TailMultiset(a);
      TailMultiset(b);
      StrictSortUnique(a[1..], b[1..], key);
      assert a == [a[0]] + a[1..] && b == [b[0]] + b[1..];
    }
  }

  /** Sorting forgets the order its input came in, when keys are distinct. */
  lemma SortByInputOrderIrrelevant<T>(a: seq<T>, b: seq<T>, key: T -> Key)
    requires multiset(a) == multiset(b) && DistinctKeys(a, key)
    ensures SortBy(a, key) == SortBy(b, key)
  {
    DistinctUnderPermutation(a, b, key);
    SortByStrict(a, key);
    SortByStrict(b, key);
    StrictSortUnique(SortBy(a, key), SortBy(b, key), key);
  }

  /** Python's `min(…, key=…)`: the first element no other element's key is below. */
  function MinBy<T>(s: seq<T>, key: T -> Key): (m: T)
    requires s != []
  {
    if |s| == 1 then s[0]
    else
      var best := MinBy(s[..|s| - 1], key);
      if Less(key(s[|s| - 1]), key(best)) then s[|s| - 1] else best
  }

  lemma {:induction false} MinByIsLeast<T>(s: seq<T>, key: T -> Key)
    requires s != []
    ensures MinBy(s, key) in s
    ensures forall i :: 0 <= i < |s| ==> !Less(key(s[i]), key(MinBy(s, key)))
  {
    if |s| == 1 {
      Trichotomy(key(s[0]), key(s[0]));
    } else {
      var front, last := s[..|s| - 1], s[|s| - 1];
      var best := MinBy(front, key);
      MinByIsLeast(front, key);
      Trichotomy(key(last), key(last));
      forall i | 0 <= i < |s| ensures !Less(key(s[i]), key(MinBy(s, key))) {
        if i < |front| {
          assert s[i] == front[i];
          if Less(key(last), key(best)) && Less(key(front[i]), key(last)) {
            Transitive(key(front[i]), key(last), key(best));
          }
        }
      }
    }
  }

  /** Anything that is least has the key `MinBy` finds. */
  lemma MinByKey<T>(s: seq<T>, key: T -> Key, x: T)
    requires x in s
    requires forall i :: 0 <= i < |s| ==> !Less(key(s[i]), key(x))
    ensures key(MinBy(s, key)) == key(x)
  {
    MinByIsLeast(s, key);
    Trichotomy(key(MinBy(s, key)), key(x));
    assert !Less(key(x), key(MinBy(s, key)));
  }

  lemma MinByKeySameElements<T>(a: seq<T>, b: seq<T>, key: T -> Key)
    requires a != [] && b != []
    requires forall x :: x in a <==> x in b
    ensures key(MinBy(a, key)) == key(MinBy(b, key))
  {
    MinByIsLeast(a, key);
    MinByIsLeast(b, key);
    var x := MinBy(b, key);
    assert x in a;
    forall i | 0 <= i < |a| ensures !Less(key(a[i]), key(x)) {
      assert a[i] in b;
    }
    MinByKey(a, key, x);
  }

  /** When equal keys mean equal elements, even a weak sort is unique. */
  lemma SortSameHead<T(!new)>(a: seq<T>, b: seq<T>, key: T -> Key)
    requires a != [] && b != [] && forall x :: x in a <==> x in b
    requires SortedBy(a, key) && SortedBy(b, key)
    requires forall x, y :: key(x) == key(y) ==> x == y
    ensures a[0] == b[0]
  {
    assert b[0] in a && a[0] in b;
    Trichotomy(key(a[0]), key(b[0]));
    Trichotomy(key(a[0]), key(a[0]));
    assert !Less(key(b[0]), key(a[0])) && !Less(key(a[0]), key(b[0]));
  }

  lemma TailMultiset<T>(s: seq<T>)
    requires s != []
    ensures multiset(s[1..]) == multiset(s) - multiset{s[0]}
  {
    assert s == [s[0]] + s[1..];
  }

  lemma {:induction false} SortUnique<T(!new)>(a: seq<T>, b: seq<T>, key: T -> Key)
    requires multiset(a) == multiset(b)
    requires SortedBy(a, key) && SortedBy(b, key)
    requires forall x, y :: key(x) == key(y) ==> x == y
    ensures a == b
  {
    SameElements(a, b);
    if a != [] {
      SortSameHead(a, b, key);
      TailMultiset(a);
      TailMultiset(b);
      SortUnique(a[1..], b[1..], key);
      assert a == [a[0]] + a[1..] && b == [b[0]] + b[1..];
    }
  }
}
