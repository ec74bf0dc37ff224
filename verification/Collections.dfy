/** Sizes of sets and maps. */
module Collections {

  lemma {:induction false} SubsetSize<T>(small: set<T>, large: set<T>)
    requires small <= large
    ensures |small| <= |large|
    ensures |small| == |large| ==> small == large
  {
    if small != {} {
      var x :| x in small;
      SubsetSize(small - {x}, large - {x});
    } else if large != {} {
      var x :| x in large;
      assert |large - {x}| == |large| - 1;
    }
  }

  lemma SplitSize<T>(a: set<T>, n: set<T>)
    ensures |a| == |a * n| + |a - n|
  {
    assert a == a * n + (a - n);
    assert (a * n) !! (a - n);
  }

  lemma AddOne<K, V>(entries: map<K, V>, k: K, v: V)
    ensures |entries[k := v]| == |entries| + if k in entries then 0 else 1
  {
    assert entries[k := v].Keys == entries.Keys + {k};
    assert |entries[k := v].Keys| == |entries[k := v]| && |entries.Keys| == |entries|;
  }

  lemma DropOne<K, V>(entries: map<K, V>, k: K)
    ensures |entries - {k}| == |entries| - if k in entries then 1 else 0
  {
    assert (entries - {k}).Keys == entries.Keys - {k};
    assert |(entries - {k}).Keys| == |entries - {k}| && |entries.Keys| == |entries|;
  }

  ghost function Tagged<S, T>(tag: S, elements: set<T>): set<(S, T)> {
    set x | x in elements :: (tag, x)
  }

  /** Tagging every element does not change how many there are. */
  lemma {:induction false} TaggedSize<S, T>(tag: S, elements: set<T>)
    ensures |Tagged(tag, elements)| == |elements|
  {
    if elements != {} {
      var y :| y in elements;
      TaggedSize(tag, elements - {y});
      assert Tagged(tag, elements) == Tagged(tag, elements - {y}) + {(tag, y)};
    }
  }
}
