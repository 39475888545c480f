/** Exactly when sorting a query keeps the given order of repeated keys, however a key is read. */
module KeyOrder {
  import opened Query

  /** The parameters that `reading` takes to `value`, in order. */
  ghost function Reading<K>(parameters: seq<string>, reading: string -> K, value: K): seq<string> {
    if |parameters| == 0 then []
    else (if reading(parameters[0]) == value then [parameters[0]] else []) + Reading(parameters[1..], reading, value)
  }

  /** Parameters that read alike already stand in the order of their keys as they are written. */
  ghost predicate InKeyOrder<K>(parameters: seq<string>, reading: string -> K) {
    forall i, j | 0 <= i < j < |parameters| ::
      reading(parameters[i]) == reading(parameters[j]) ==> LessEq(Key(parameters[i]), Key(parameters[j]))
  }

  lemma {:induction false} ReadingMembers<K>(parameters: seq<string>, reading: string -> K, value: K, p: string)
    ensures p in Reading(parameters, reading, value) <==> p in parameters && reading(p) == value
  {
    if |parameters| > 0 {
      ReadingMembers(parameters[1..], reading, value, p);
      assert parameters == [parameters[0]] + parameters[1..];
    }
  }

  /** Where a parameter goes among all it goes among those that read alike. */
  lemma {:induction false} ReadingOfInsert<K>(p: string, sorted: seq<string>, reading: string -> K, value: K)
    requires Sorted(sorted)
    ensures var alike := Reading(sorted, reading, value);
            Reading(Insert(p, sorted), reading, value) == if reading(p) == value then Insert(p, alike) else alike
  {
    var alike := Reading(sorted, reading, value);
    if |sorted| == 0 || LessEq(Key(p), Key(sorted[0])) {
      assert ([p] + sorted)[1..] == sorted;
      if |alike| > 0 {
        ReadingMembers(sorted, reading, value, alike[0]);
        LeastIsFirst(p, sorted, alike[0]);
      }
      assert [] + alike == alike;
    } else {
      var h, t := sorted[0], sorted[1..];
      SortedTail(h, t);
      ReadingOfInsert(p, t, reading, value);
      ReadingOfMore(h, Insert(p, t), reading, value);
      ReadingOfMore(h, t, reading, value);
      assert sorted == [h] + t;
      var rest := Reading(t, reading, value);
      assert ([h] + rest)[1..] == rest;
    }
  }

  lemma ReadingOfMore<K>(h: string, t: seq<string>, reading: string -> K, value: K)
    ensures Reading([h] + t, reading, value)
         == if reading(h) == value then [h] + Reading(t, reading, value) else Reading(t, reading, value)
  {
    assert ([h] + t)[1..] == t;
    assert [] + Reading(t, reading, value) == Reading(t, reading, value);
  }

  lemma LeastIsFirst(p: string, sorted: seq<string>, q: string)
    requires Sorted(sorted) && q in sorted && LessEq(Key(p), Key(sorted[0]))
    ensures LessEq(Key(p), Key(q))
  {
    var j :| 0 <= j < |sorted| && sorted[j] == q;
    if j > 0 {
      LessEqTransitive(Key(p), Key(sorted[0]), Key(q));
    }
  }

  /** Sorting commutes with picking out the parameters that read alike. */
  lemma {:induction false} ReadingOfSorted<K>(parameters: seq<string>, reading: string -> K, value: K)
    ensures Reading(StableSort(parameters), reading, value) == StableSort(Reading(parameters, reading, value))
  {
    if |parameters| > 0 {
      var h, t := parameters[0], parameters[1..];
      ReadingOfSorted(t, reading, value);
      StableSortIsStable(t);
      ReadingOfInsert(h, StableSort(t), reading, value);
      assert parameters == [h] + t;
      ReadingOfMore(h, t, reading, value);
      SortOfMore(h, Reading(t, reading, value));
    }
  }

  lemma SortOfMore(h: string, t: seq<string>)
    ensures StableSort([h] + t) == Insert(h, StableSort(t))
  {
    assert ([h] + t)[1..] == t;
  }

  lemma SortedIsFixed(parameters: seq<string>)
    ensures StableSort(parameters) == parameters <==> Sorted(parameters)
  {
    StableSortIsStable(parameters);
    if Sorted(parameters) {
      SortOfSorted(parameters);
    }
  }

  lemma SortedWithHead(h: string, t: seq<string>)
    requires Sorted(t) && forall q | q in t :: LessEq(Key(h), Key(q))
    ensures Sorted([h] + t)
  {
    var all := [h] + t;
    forall i, j | 0 <= i < j < |all| ensures LessEq(Key(all[i]), Key(all[j])) {
      assert all[j] == t[j - 1];
    }
  }

  lemma {:induction false} AlikeAreSorted<K>(parameters: seq<string>, reading: string -> K, value: K)
    requires InKeyOrder(parameters, reading)
    ensures Sorted(Reading(parameters, reading, value))
  {
    if |parameters| > 0 {
      var h, t := parameters[0], parameters[1..];
      AlikeAreSorted(t, reading, value);
      if reading(h) == value {
        forall q | q in Reading(t, reading, value) ensures LessEq(Key(h), Key(q)) {
          ReadingMembers(t, reading, value, q);
          var j :| 0 <= j < |t| && t[j] == q;
          assert parameters[j + 1] == q;
        }
        SortedWithHead(h, Reading(t, reading, value));
      }
    }
  }

  lemma HeadIsLeastOf(h: string, t: seq<string>, q: string)
    requires Sorted([h] + t) && q in t
    ensures LessEq(Key(h), Key(q))
  {
    var j :| 0 <= j < |t| && t[j] == q;
    assert ([h] + t)[0] == h && ([h] + t)[j + 1] == q;
  }

  lemma SortedTail(h: string, t: seq<string>)
    requires Sorted([h] + t)
    ensures Sorted(t)
  {
    forall i, j | 0 <= i < j < |t| ensures LessEq(Key(t[i]), Key(t[j])) {
      assert ([h] + t)[i + 1] == t[i] && ([h] + t)[j + 1] == t[j];
    }
  }

  lemma RestIsSorted<K>(h: string, t: seq<string>, reading: string -> K, value: K)
    requires Sorted(Reading([h] + t, reading, value))
    ensures Sorted(Reading(t, reading, value))
  {
    ReadingOfMore(h, t, reading, value);
    if reading(h) == value {
      SortedTail(h, Reading(t, reading, value));
    }
  }

  lemma FirstIsLeast<K>(h: string, t: seq<string>, reading: string -> K, q: string)
    requires Sorted(Reading([h] + t, reading, reading(h))) && q in t && reading(q) == reading(h)
    ensures LessEq(Key(h), Key(q))
  {
    ReadingOfMore(h, t, reading, reading(h));
    ReadingMembers(t, reading, reading(h), q);
    HeadIsLeastOf(h, Reading(t, reading, reading(h)), q);
  }

  lemma {:induction false} SortedAlikeAreInOrder<K>(parameters: seq<string>, reading: string -> K, i: nat, j: nat)
    requires i < j < |parameters| && reading(parameters[i]) == reading(parameters[j])
    requires Sorted(Reading(parameters, reading, reading(parameters[i])))
    ensures LessEq(Key(parameters[i]), Key(parameters[j]))
  {
    var h, t := parameters[0], parameters[1..];
    assert parameters == [h] + t;
    if i == 0 {
      assert t[j - 1] in t;
      FirstIsLeast(h, t, reading, t[j - 1]);
    } else {
      RestIsSorted(h, t, reading, reading(parameters[i]));
      SortedAlikeAreInOrder(t, reading, i - 1, j - 1);
    }
  }

  /** However a key is read, its parameters stay in their given order. */
  ghost predicate KeepsOrder<K(!new)>(parameters: seq<string>, reading: string -> K) {
    forall value :: Reading(StableSort(parameters), reading, value) == Reading(parameters, reading, value)
  }

  /**
   * Exactly when the sort keeps the given order of repeated keys, for any reading of a parameter's key: when parameters
   * that read alike already stand in the order of their spellings.
   */
  lemma OrderIsKeptIff<K(!new)>(parameters: seq<string>, reading: string -> K)
    ensures KeepsOrder(parameters, reading) <==> InKeyOrder(parameters, reading)
  {
    if InKeyOrder(parameters, reading) {
      InOrderIsKept(parameters, reading);
    }
    if KeepsOrder(parameters, reading) {
      KeptIsInOrder(parameters, reading);
    }
  }

  lemma InOrderIsKept<K(!new)>(parameters: seq<string>, reading: string -> K)
    requires InKeyOrder(parameters, reading)
    ensures KeepsOrder(parameters, reading)
  {
    forall value ensures Reading(StableSort(parameters), reading, value) == Reading(parameters, reading, value) {
      ReadingOfSorted(parameters, reading, value);
      SortedIsFixed(Reading(parameters, reading, value));
      AlikeAreSorted(parameters, reading, value);
    }
  }

  lemma KeptIsInOrder<K(!new)>(parameters: seq<string>, reading: string -> K)
    requires KeepsOrder(parameters, reading)
    ensures InKeyOrder(parameters, reading)
  {
    forall i, j | 0 <= i < j < |parameters| && reading(parameters[i]) == reading(parameters[j])
      ensures LessEq(Key(parameters[i]), Key(parameters[j]))
    {
      var value := reading(parameters[i]);
      assert Reading(StableSort(parameters), reading, value) == Reading(parameters, reading, value);
      ReadingOfSorted(parameters, reading, value);
      SortedIsFixed(Reading(parameters, reading, value));
      SortedAlikeAreInOrder(parameters, reading, i, j);
    }
  }
}
