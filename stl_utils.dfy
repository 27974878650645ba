/** The container helpers of the engine's `stl` namespace.

    A `std::multimap<K, V>` is modelled as `map<K, seq<V>>`: the entries of one key,
    in the multimap's iteration order. An iterator into the equal range of a key is
    an offset into that sequence, and a `range`/`const_range` is a pair of offsets.
    The vector-like containers that the erase and push helpers change in place are
    passed in and handed back as sequences. */
module StlUtils {

  /** The entries stored under `key`, in iteration order (empty when the key is absent). */
  function Entries<K, V>(mm: map<K, seq<V>>, key: K): seq<V>
  {
    if key in mm then mm[key] else []
  }

  /** `stl::range` and `stl::const_range`: the iterators `begin` and `end`. */
  datatype Range = Range(begin: nat, end: nat)
  {
    /** `range::valid`: the range is not empty. */
    predicate Valid() { begin != end }

    /** `range::get`: the iterator at the start of the range. */
    function Get(): nat { begin }

    /** `range::distance`. */
    function Distance(): int { end - begin }
  }

  /** `stl::advance_in_range(first, last, n)`: `first` moved `n` steps, but never
      before `first` nor past `last`. */
  function AdvanceInRange(first: nat, last: nat, n: int): (it: nat)
    requires first <= last
    ensures first <= it <= last
    ensures n <= 0 ==> it == first
    ensures n >= last - first ==> it == last
    ensures 0 <= n <= last - first ==> it - first == n
  {
    if n <= 0 then first
    else if n >= last - first then last
    else first + n
  }

  /** `stl::get_range(mm, key, n)`: the part of key's equal range that starts at its
      n-th element (counted from 0), as offsets into `Entries(mm, key)`. */
  function GetRange<K, V>(mm: map<K, seq<V>>, key: K, n: int): (r: Range)
    ensures r.begin <= r.end == |Entries(mm, key)|
  {
    var count := |Entries(mm, key)|;
    Range(AdvanceInRange(0, count, n), count)
  }

  /** The range that get_range returns is exactly the suffix of the key's entries that
      starts at instance n: it is valid iff the key has more than n entries, and its
      first entry is then the n-th one. */
  lemma GetRangeSelectsInstance<K, V>(mm: map<K, seq<V>>, key: K, n: nat)
    ensures GetRange(mm, key, n).Valid() <==> n < |Entries(mm, key)|
    ensures n < |Entries(mm, key)| ==> Entries(mm, key)[GetRange(mm, key, n).Get()..] == Entries(mm, key)[n..]
    ensures GetRange(mm, key, n).Valid() ==> GetRange(mm, key, n).Distance() == |Entries(mm, key)| - n
  {
  }

  /** `stl::find_and_erase`: erase the first element equal to `value`, keeping the
      order of the others; report whether one was found. */
  method FindAndErase<T(==)>(container: seq<T>, value: T) returns (found: bool, result: seq<T>)
    ensures found <==> value in container
    ensures !found ==> result == container
    ensures found ==> exists k :: 0 <= k < |container| && container[k] == value && value !in container[..k]
                                   && result == container[..k] + container[k + 1..]
    ensures multiset(result) == multiset(container) - multiset{value}
  {
    var i := 0;
    while i < |container|
      invariant 0 <= i <= |container|
      invariant value !in container[..i]
    {
      if container[i] == value {
        result := container[..i] + container[i + 1..];
        EraseAt(container, i);
        return true, result;
      }
      assert container[..i + 1] == container[..i] + [container[i]];
      i := i + 1;
    }
    assert container[..i] == container;
    return false, container;
  }

  /** `stl::find_and_erase_unordered`: overwrite the first element equal to `value`
      with the last element and drop the last element. */
  method FindAndEraseUnordered<T(==)>(container: seq<T>, value: T) returns (found: bool, result: seq<T>)
    ensures found <==> value in container
    ensures !found ==> result == container
    ensures found ==> |result| == |container| - 1
    ensures multiset(result) == multiset(container) - multiset{value}
    ensures found ==> exists k :: 0 <= k < |container| && container[k] == value && value !in container[..k]
                                   && forall j :: 0 <= j < |result| ==> result[j] == (if j == k then container[|container| - 1] else container[j])
  {
    var i := 0;
    while i < |container|
      invariant 0 <= i <= |container|
      invariant value !in container[..i]
    {
      if container[i] == value {
        var last := |container| - 1;
        var moved := container[i := container[last]];
        result := moved[..last];
        EraseByLast(container, i);
        return true, result;
      }
      assert container[..i + 1] == container[..i] + [container[i]];
      i := i + 1;
    }
    assert container[..i] == container;
    return false, container;
  }

  /** Removing the element at `i` removes one occurrence of it. */
  lemma EraseAt<T>(c: seq<T>, i: nat)
    requires i < |c|
    ensures multiset(c[..i] + c[i + 1..]) == multiset(c) - multiset{c[i]}
  {
    assert c == c[..i] + [c[i]] + c[i + 1..];
  }

  /** Overwriting the element at `i` with the last one and dropping the last removes
      one occurrence of the element at `i` and keeps every other position. */
  lemma EraseByLast<T>(c: seq<T>, i: nat)
    requires i < |c|
    ensures var r := c[i := c[|c| - 1]][..|c| - 1];
      |r| == |c| - 1 && multiset(r) == multiset(c) - multiset{c[i]} &&
      forall j :: 0 <= j < |r| ==> r[j] == (if j == i then c[|c| - 1] else c[j])
  {
    var last := |c| - 1;
    assert c == c[..last] + [c[last]];
    if i < last {
      assert c[i := c[last]][..last] == c[..last][i := c[last]];
      assert multiset(c[..last][i := c[last]])
          == multiset(c[..last]) - multiset{c[i]} + multiset{c[last]};
    }
  }

  /** `stl::push_back_unique`: append `value` unless it is already present; report
      whether it was appended. */
  method PushBackUnique<T(==)>(container: seq<T>, value: T) returns (appended: bool, result: seq<T>)
    ensures appended <==> value !in container
    ensures result == if appended then container + [value] else container
    ensures value in result
  {
    var i := 0;
    while i < |container|
      invariant 0 <= i <= |container|
      invariant value !in container[..i]
    {
      if container[i] == value {
        return false, container;
      }
      assert container[..i + 1] == container[..i] + [container[i]];
      i := i + 1;
    }
    assert container[..i] == container;
    return true, container + [value];
  }
}
