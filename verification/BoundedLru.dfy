/** The bounded cache with least-recently-used eviction. */
module BoundedLru {
  import opened Basics
  import opened Options

  /** Entries from the least to the most recently used. */
  type Data<K, V> = seq<(K, V)>

  /** The operations that can change a cache or read a value. */
  datatype Op<K, V> =
    | Get(key: K, fallback: V)
    | GetItem(key: K)
    | Set(key: K, value: V)
    | SetDefault(key: K, value: V)
    | Delete(key: K)
    | Pop(key: K, fallback: V)
    | Clear

  // ---------------------------------------------------------------- specification

  function Keys<K, V>(data: Data<K, V>): seq<K> {
    if data == [] then [] else Keys(data[..|data| - 1]) + [data[|data| - 1].0]
  }

  function Without<K(==), V>(data: Data<K, V>, key: K): Data<K, V> {
    if data == [] then []
    else Without(data[..|data| - 1], key) + if data[|data| - 1].0 == key then [] else [data[|data| - 1]]
  }

  /** The value under a key. */
  function Lookup<K(==), V>(data: Data<K, V>, key: K): Option<V> {
    if data == [] then None
    else if data[|data| - 1].0 == key then Some(data[|data| - 1].1)
    else Lookup(data[..|data| - 1], key)
  }

  /** The entries after an operation on a cache of max entries. */
  function After<K(==), V>(op: Op<K, V>, data: Data<K, V>, max: nat): Data<K, V> {
    match op
    case Get(key, _) => Bumped(data, key)
    case GetItem(key) => Bumped(data, key)
    case Set(key, value) => Stored(data, key, value, max)
    case SetDefault(key, value) => if Lookup(data, key).Some? then Bumped(data, key) else Stored(data, key, value, max)
    case Delete(key) => Without(data, key)
    case Pop(key, _) => Without(data, key)
    case Clear => []
  }

  function Bumped<K(==), V>(data: Data<K, V>, key: K): Data<K, V> {
    match Lookup(data, key)
    case Some(value) => Without(data, key) + [(key, value)]
    case None => data
  }

  function Stored<K(==), V>(data: Data<K, V>, key: K, value: V, max: nat): Data<K, V> {
    if Lookup(data, key).Some? then Without(data, key) + [(key, value)] else Newest(data + [(key, value)], max)
  }

  /** What the operation hands back; None stands for a KeyError. */
  function Answer<K(==), V>(op: Op<K, V>, data: Data<K, V>): Option<V> {
    match op
    case Get(key, fallback) => Some(ValueOr(Lookup(data, key), fallback))
    case GetItem(key) => Lookup(data, key)
    case SetDefault(key, value) => Some(ValueOr(Lookup(data, key), value))
    case Pop(key, fallback) => Some(ValueOr(Lookup(data, key), fallback))
    case Delete(key) => Lookup(data, key)
    case _ => None
  }

  function ValueOr<V>(found: Option<V>, fallback: V): V {
    if found.Some? then found.value else fallback
  }

  predicate Distinct<K(==)>(keys: seq<K>) {
    forall i, j :: 0 <= i < j < |keys| ==> keys[i] != keys[j]
  }

  // ---------------------------------------------------------------- the class

  class BoundedLRU<K(==), V> {
    var data: Data<K, V>
    const maxsize: nat

    ghost predicate Valid()
      reads this
    {
      maxsize >= 1 && |data| <= maxsize && Distinct(Keys(data))
    }

    constructor (maxsize: nat)
      requires maxsize >= 1
      ensures Valid() && this.maxsize == maxsize && data == []
    {
      this.maxsize := maxsize;
      data := [];
    }

    /** A cache, or None for the ValueError of a size below one. */
    static method Create(maxsize: int) returns (cache: Option<BoundedLRU<K, V>>)
      ensures cache.Some? <==> maxsize >= 1
      ensures cache.Some? ==>
        fresh(cache.value) && cache.value.Valid() && cache.value.maxsize == maxsize && cache.value.data == []
    {
      if maxsize < 1 { return None; }
      var made := new BoundedLRU<K, V>(maxsize);
      cache := Some(made);
    }

    /** Moves an entry to the most recent end, under a new value. */
    method MoveToEnd(key: K, value: V)
      requires Valid() && Lookup(data, key).Some?
      modifies this
      ensures Valid() && data == Without(old(data), key) + [(key, value)]
    {
      PositionSplits(data, key);
      StepValid(Set(key, value), data, maxsize);
      var at := Position(data, key);
      data := data[..at] + data[at + 1..] + [(key, value)];
    }

    method EvictIfNeeded()
      modifies this
      ensures data == Newest(old(data), maxsize)
    {
      while |data| > maxsize
        invariant |data| <= |old(data)| && data == old(data)[|old(data)| - |data|..]
        invariant |data| >= maxsize || data == old(data)
        decreases |data|
      {
        data := data[1..];
      }
    }

    method Get(key: K, fallback: V) returns (value: V)
      requires Valid()
      modifies this
      ensures Valid() && data == After(Op.Get(key, fallback), old(data), maxsize)
      ensures Some(value) == Answer(Op.Get(key, fallback), old(data))
    {
      hide Without;
      var found := Lookup(data, key);
      if found.None? { return fallback; }
      MoveToEnd(key, found.value);
      value := found.value;
    }

    /** Reads a key; a missing one is a KeyError and changes nothing. */
    method GetItem(key: K) returns (value: Option<V>)
      requires Valid()
      modifies this
      ensures Valid() && data == After(Op.GetItem(key), old(data), maxsize)
      ensures value == Answer(Op.GetItem(key), old(data))
    {
      hide Without;
      value := Lookup(data, key);
      if value.Some? { MoveToEnd(key, value.value); }
    }

    method SetItem(key: K, value: V)
      requires Valid()
      modifies this
      ensures Valid() && data == After(Op.Set(key, value), old(data), maxsize)
    {
      hide Without, Newest;
      StepValid(Set(key, value), data, maxsize);
      if Lookup(data, key).Some? {
        MoveToEnd(key, value);
      } else {
        data := data + [(key, value)];
        EvictIfNeeded();
      }
    }

    method SetDefault(key: K, value: V) returns (result: V)
      requires Valid()
      modifies this
      ensures Valid() && data == After(Op.SetDefault(key, value), old(data), maxsize)
      ensures Some(result) == Answer(Op.SetDefault(key, value), old(data))
    {
      hide Without, Newest;
      StepValid(Op.SetDefault(key, value), data, maxsize);
      var found := Lookup(data, key);
      if found.Some? {
        MoveToEnd(key, found.value);
        return found.value;
      }
      data := data + [(key, value)];
      EvictIfNeeded();
      result := value;
    }

    /** Removes a key; a missing one is a KeyError and changes nothing. */
    method DelItem(key: K) returns (raised: bool)
      requires Valid()
      modifies this
      ensures Valid() && data == After(Op.Delete(key), old(data), maxsize)
      ensures raised <==> Answer(Op.Delete(key), old(data)).None?
    {
      StepValid(Op.Delete(key), data, maxsize);
      PositionSplits(data, key);
      var at := Position(data, key);
      raised := at == |data|;
      if !raised { data := data[..at] + data[at + 1..]; }
    }

    method Pop(key: K, fallback: V) returns (value: V)
      requires Valid()
      modifies this
      ensures Valid() && data == After(Op.Pop(key, fallback), old(data), maxsize)
      ensures Some(value) == Answer(Op.Pop(key, fallback), old(data))
    {
      StepValid(Op.Pop(key, fallback), data, maxsize);
      PositionSplits(data, key);
      var at := Position(data, key);
      value := fallback;
      if at < |data| {
        value := data[at].1;
        data := data[..at] + data[at + 1..];
      }
    }

    method Clear()
      requires Valid()
      modifies this
      ensures Valid() && data == After(Op.Clear, old(data), maxsize)
    {
      data := [];
    }
  }

  /** Where a key is, or the number of entries. */
  function Position<K(==), V>(data: Data<K, V>, key: K): nat {
    if data == [] then 0
    else if data[0].0 == key then 0
    else 1 + Position(data[1..], key)
  }

  lemma KeysAt<K, V>(data: Data<K, V>)
    ensures |Keys(data)| == |data| && forall i :: 0 <= i < |data| ==> Keys(data)[i] == data[i].0
  {
    if data != [] { KeysAt(data[..|data| - 1]); }
  }

  lemma {:induction false} WithoutJoin<K, V>(a: Data<K, V>, b: Data<K, V>, key: K)
    ensures Without(a + b, key) == Without(a, key) + Without(b, key)
    decreases |b|
  {
    if b == [] {
      assert a + b == a;
    } else {
      assert (a + b)[..|a + b| - 1] == a + b[..|b| - 1];
      WithoutJoin(a, b[..|b| - 1], key);
    }
  }

  predicate Absent<K(==), V>(data: Data<K, V>, key: K) {
    forall i :: 0 <= i < |data| ==> data[i].0 != key
  }

  lemma {:induction false} WithoutAbsent<K, V>(data: Data<K, V>, key: K)
    requires Absent(data, key)
    ensures Without(data, key) == data && Lookup(data, key).None?
  {
    if data != [] {
      var front, last := data[..|data| - 1], data[|data| - 1];
      assert last.0 != key;
      WithoutAbsent(front, key);
      assert data == front + [last] && Without(data, key) == Without(front, key) + [last];
    }
  }

  lemma {:induction false} PositionIs<K, V>(data: Data<K, V>, key: K)
    ensures Position(data, key) <= |data|
    ensures Absent(data[..Position(data, key)], key)
    ensures Position(data, key) < |data| ==> data[Position(data, key)].0 == key
  {
    if data != [] && data[0].0 != key {
      PositionIs(data[1..], key);
      assert data[..Position(data, key)] == [data[0]] + data[1..][..Position(data[1..], key)];
    }
  }

  lemma {:induction false} LookupLast<K, V>(data: Data<K, V>, at: nat)
    requires at < |data| && Absent(data[at + 1..], data[at].0)
    ensures Lookup(data, data[at].0) == Some(data[at].1)
    decreases |data|
  {
    if at < |data| - 1 {
      assert data[at + 1..][|data| - at - 2] == data[|data| - 1];
      assert data[..|data| - 1][at + 1..] == data[at + 1..][..|data| - at - 2];
      LookupLast(data[..|data| - 1], at);
    }
  }

  /** Keys after a place in a list of distinct keys differ from the key there. */
  lemma AloneAt<K, V>(data: Data<K, V>, at: nat)
    requires Distinct(Keys(data)) && at < |data|
    ensures Absent(data[at + 1..], data[at].0)
  {
    KeysAt(data);
    var keys, rest := Keys(data), data[at + 1..];
    hide Keys;
    forall i | 0 <= i < |rest| ensures rest[i].0 != data[at].0 {
      assert keys[at] != keys[at + 1 + i] && rest[i] == data[at + 1 + i];
    }
  }

  lemma PositionAlone<K, V>(data: Data<K, V>, key: K)
    requires Distinct(Keys(data)) && Position(data, key) < |data|
    ensures data[Position(data, key)].0 == key
    ensures Absent(data[..Position(data, key)], key) && Absent(data[Position(data, key) + 1..], key)
  {
    hide Keys, Distinct, Position, Absent;
    PositionIs(data, key);
    AloneAt(data, Position(data, key));
  }

  lemma WithoutMiddle<K, V>(left: Data<K, V>, entry: (K, V), right: Data<K, V>, key: K)
    requires Absent(left, key) && Absent(right, key) && entry.0 == key
    ensures Without(left + [entry] + right, key) == left + right
  {
    hide Without, Lookup, Absent;
    WithoutAbsent(left, key);
    WithoutAbsent(right, key);
    WithoutOne(entry);
    WithoutJoin(left + [entry], right, key);
    WithoutJoin(left, [entry], key);
    assert Without(left + [entry], key) == left;
  }

  lemma Around<T>(items: seq<T>, at: nat)
    requires at < |items|
    ensures items == items[..at] + [items[at]] + items[at + 1..]
  {
  }

  /** Cutting out the entry at a key's position leaves the entries without the key. */
  lemma PositionSplits<K, V>(data: Data<K, V>, key: K)
    requires Distinct(Keys(data))
    ensures var at := Position(data, key);
            && at <= |data|
            && (at < |data| <==> Lookup(data, key).Some?)
            && (at < |data| ==> data[at].0 == key && Lookup(data, key) == Some(data[at].1)
                                && data[..at] + data[at + 1..] == Without(data, key))
            && (at == |data| ==> Without(data, key) == data)
  {
    hide Without, Lookup, Keys, Distinct, Position, Absent;
    var at := Position(data, key);
    PositionIs(data, key);
    if at < |data| {
      PositionAlone(data, key);
      LookupLast(data, at);
      WithoutMiddle(data[..at], data[at], data[at + 1..], key);
      Around(data, at);
    } else {
      assert data[..at] == data;
      WithoutAbsent(data, key);
    }
  }

  lemma WithoutOne<K, V>(entry: (K, V))
    ensures Without([entry], entry.0) == []
  {
    assert [entry][..|[entry]| - 1] == [];
  }

  // ---------------------------------------------------------------- keys alone

  /** A key sequence without one key. */
  function Less<K(==)>(keys: seq<K>, key: K): seq<K> {
    if keys == [] then []
    else Less(keys[..|keys| - 1], key) + if keys[|keys| - 1] == key then [] else [keys[|keys| - 1]]
  }

  /** What an operation does to the keys. */
  function KeysAfter<K(==), V>(op: Op<K, V>, keys: seq<K>, max: nat): seq<K> {
    match op
    case Get(key, _) => if key in keys then Less(keys, key) + [key] else keys
    case GetItem(key) => if key in keys then Less(keys, key) + [key] else keys
    case Set(key, _) => if key in keys then Less(keys, key) + [key] else Newest(keys + [key], max)
    case SetDefault(key, _) => if key in keys then Less(keys, key) + [key] else Newest(keys + [key], max)
    case Delete(key) => Less(keys, key)
    case Pop(key, _) => Less(keys, key)
    case Clear => []
  }

  lemma {:induction false} KeysWithout<K, V>(data: Data<K, V>, key: K)
    ensures Keys(Without(data, key)) == Less(Keys(data), key)
  {
    if data != [] {
      var front, last := data[..|data| - 1], data[|data| - 1];
      KeysWithout(front, key);
      assert (Keys(front) + [last.0])[..|Keys(front) + [last.0]| - 1] == Keys(front);
      if last.0 != key {
        assert (Without(front, key) + [last])[..|Without(front, key) + [last]| - 1] == Without(front, key);
      } else {
        assert Without(front, key) + [] == Without(front, key);
        assert Less(Keys(front), key) + [] == Less(Keys(front), key);
      }
    }
  }

  lemma {:induction false} LookupKeys<K, V>(data: Data<K, V>, key: K)
    ensures Lookup(data, key).Some? <==> key in Keys(data)
  {
    if data != [] { LookupKeys(data[..|data| - 1], key); }
  }

  lemma KeysPut<K, V>(data: Data<K, V>, entry: (K, V))
    ensures Keys(data + [entry]) == Keys(data) + [entry.0]
  {
    assert (data + [entry])[..|data + [entry]| - 1] == data;
  }

  lemma KeysNewest<K, V>(data: Data<K, V>, max: nat)
    ensures Keys(Newest(data, max)) == Newest(Keys(data), max)
  {
    hide Keys;
    if |data| > max { KeysDrop(data, |data| - max); }
    KeysLength(data);
  }

  lemma {:induction false} KeysDrop<K, V>(data: Data<K, V>, n: nat)
    requires n <= |data|
    ensures |Keys(data)| == |data| && Keys(data[n..]) == Keys(data)[n..]
  {
    KeysLength(data);
    if n < |data| {
      var front := data[..|data| - 1];
      KeysDrop(front, n);
      assert data[n..][..|data[n..]| - 1] == front[n..];
    }
  }

  lemma KeysOfAfter<K, V>(op: Op<K, V>, data: Data<K, V>, max: nat)
    ensures Keys(After(op, data, max)) == KeysAfter(op, Keys(data), max)
  {
    hide Keys, Without, Less, Newest, Lookup;
    if !op.Clear? {
      LookupKeys(data, op.key);
      KeysWithout(data, op.key);
      if Lookup(data, op.key).Some? { KeysPut(Without(data, op.key), (op.key, Lookup(data, op.key).value)); }
      if op.Set? || op.SetDefault? {
        KeysPut(Without(data, op.key), (op.key, op.value));
        KeysPut(data, (op.key, op.value));
        KeysNewest(data + [(op.key, op.value)], max);
      }
    } else {
      KeysNone<K, V>();
    }
  }

  lemma KeysNone<K, V>()
    ensures Keys<K, V>([]) == []
  {
  }

  lemma {:induction false} LessFacts<K>(keys: seq<K>, key: K)
    ensures |Less(keys, key)| <= |keys| && (key in keys ==> |Less(keys, key)| < |keys|)
    ensures forall k :: k in Less(keys, key) <==> k in keys && k != key
  {
    if keys != [] {
      var front, last := keys[..|keys| - 1], keys[|keys| - 1];
      LessFacts(front, key);
      assert keys == front + [last];
    }
  }

  lemma DistinctPut<K>(keys: seq<K>, key: K)
    requires Distinct(keys) && key !in keys
    ensures Distinct(keys + [key])
  {
  }

  lemma {:induction false} LessDistinct<K>(keys: seq<K>, key: K)
    requires Distinct(keys)
    ensures Distinct(Less(keys, key))
  {
    if keys != [] {
      var front, last := keys[..|keys| - 1], keys[|keys| - 1];
      LessDistinct(front, key);
      LessFacts(front, key);
      forall i | 0 <= i < |front| ensures front[i] != last { assert keys[i] != keys[|front|]; }
      if last == key { assert Less(keys, key) == Less(front, key); } else { DistinctPut(Less(front, key), last); }
    }
  }

  /** Every operation keeps the keys distinct and the size within bounds. */
  lemma StepValid<K, V>(op: Op<K, V>, data: Data<K, V>, max: nat)
    requires max >= 1 && Distinct(Keys(data)) && |data| <= max
    ensures Distinct(Keys(After(op, data, max))) && |After(op, data, max)| <= max
  {
    KeysOfAfter(op, data, max);
    KeysLength(After(op, data, max));
    KeysLength(data);
    hide Keys, Less, After;
    if !op.Clear? {
      LessFacts(Keys(data), op.key);
      LessDistinct(Keys(data), op.key);
    }
  }

  lemma KeysLength<K, V>(data: Data<K, V>)
    ensures |Keys(data)| == |data|
  {
    KeysAt(data);
  }

  // ---------------------------------------------------------------- inclusion

  /** The first is the second with some elements left out. */
  predicate Subsequence<T(==)>(a: seq<T>, b: seq<T>) {
    if a == [] then true
    else if b == [] then false
    else if a[|a| - 1] == b[|b| - 1] then Subsequence(a[..|a| - 1], b[..|b| - 1])
    else Subsequence(a, b[..|b| - 1])
  }

  lemma {:induction false} SubsequenceFacts<T>(a: seq<T>, b: seq<T>)
    requires Subsequence(a, b)
    ensures |a| <= |b| && forall x :: x in a ==> x in b
  {
    if a != [] {
      SubsequenceFacts(if a[|a| - 1] == b[|b| - 1] then a[..|a| - 1] else a, b[..|b| - 1]);
      assert a == a[..|a| - 1] + [a[|a| - 1]] && b == b[..|b| - 1] + [b[|b| - 1]];
    }
  }

  lemma SubsequencePut<T>(a: seq<T>, b: seq<T>, x: T)
    requires Subsequence(a, b)
    ensures Subsequence(a + [x], b + [x])
  {
    assert (a + [x])[..|a + [x]| - 1] == a && (b + [x])[..|b + [x]| - 1] == b;
  }

  lemma {:induction false} LessAbsent<T>(keys: seq<T>, key: T)
    requires key !in keys
    ensures Less(keys, key) == keys
  {
    if keys != [] {
      assert keys[|keys| - 1] != key;
      LessAbsent(keys[..|keys| - 1], key);
    }
  }

  lemma {:induction false} SubsequenceLess<T>(a: seq<T>, b: seq<T>, key: T)
    requires Subsequence(a, b)
    ensures Subsequence(Less(a, key), Less(b, key))
  {
    if a != [] {
      var front, last := b[..|b| - 1], b[|b| - 1];
      var rest := if a[|a| - 1] == last then a[..|a| - 1] else a;
      SubsequenceLess(rest, front, key);
      hide Subsequence;
      if a[|a| - 1] == last {
        if last != key {
          SubsequencePut(Less(rest, key), Less(front, key), last);
        } else {
          LessLast(a, key);
          LessLast(b, key);
        }
      } else if last != key {
        SubsequenceWider(Less(a, key), Less(front, key), last);
      } else {
        LessLast(b, key);
      }
    }
  }

  lemma LessLast<T>(keys: seq<T>, key: T)
    requires keys != [] && keys[|keys| - 1] == key
    ensures Less(keys, key) == Less(keys[..|keys| - 1], key)
  {
  }

  lemma {:induction false} SubsequenceWider<T>(a: seq<T>, b: seq<T>, x: T)
    requires Subsequence(a, b)
    ensures Subsequence(a, b + [x])
    decreases |b|, 1
  {
    assert (b + [x])[..|b + [x]| - 1] == b;
    if a != [] && a[|a| - 1] == x { SubsequenceFront(a, b); }
  }

  lemma {:induction false} SubsequenceFront<T>(a: seq<T>, b: seq<T>)
    requires a != [] && Subsequence(a, b)
    ensures Subsequence(a[..|a| - 1], b)
    decreases |b|, 0
  {
    if a[|a| - 1] == b[|b| - 1] {
      SubsequenceWider(a[..|a| - 1], b[..|b| - 1], b[|b| - 1]);
    } else {
      SubsequenceFront(a, b[..|b| - 1]);
      SubsequenceWider(a[..|a| - 1], b[..|b| - 1], b[|b| - 1]);
    }
    assert b == b[..|b| - 1] + [b[|b| - 1]];
  }

  lemma {:induction false} SubsequenceTail<T>(a: seq<T>, b: seq<T>)
    requires a != [] && Subsequence(a, b)
    ensures Subsequence(a[1..], b)
    decreases |b|
  {
    var last := a[|a| - 1];
    if last == b[|b| - 1] {
      if |a| > 1 {
        SubsequenceTail(a[..|a| - 1], b[..|b| - 1]);
        assert a[1..][..|a| - 2] == a[..|a| - 1][1..];
      }
    } else {
      SubsequenceTail(a, b[..|b| - 1]);
      assert |a| > 1 ==> a[1..][|a| - 2] == last;
    }
  }

  lemma MiddleOf<T>(items: seq<T>)
    requires |items| >= 2
    ensures items[1..][..|items| - 2] == items[..|items| - 1][1..] && items[..|items| - 1][0] == items[0]
  {
  }

  /** Dropping the head of the longer sequence is harmless unless the shorter one
      starts with it. */
  lemma {:induction false} SubsequenceHead<T>(a: seq<T>, b: seq<T>)
    requires Subsequence(a, b) && b != [] && b[0] !in a
    ensures Subsequence(a, b[1..])
    decreases |b|
  {
    if a != [] {
      SubsequenceFacts(a, b);
      var last := a[|a| - 1];
      assert last in a;
      var i :| 0 <= i < |b| && b[i] == last;
      assert i > 0;
      MiddleOf(b);
      if last == b[|b| - 1] {
        assert a == a[..|a| - 1] + [last];
        SubsequenceHead(a[..|a| - 1], b[..|b| - 1]);
      } else {
        SubsequenceHead(a, b[..|b| - 1]);
      }
    }
  }

  lemma {:induction false} HeadShared<T>(a: seq<T>, b: seq<T>)
    requires Subsequence(a, b) && Distinct(b) && b != [] && b[0] in a
    ensures a[0] == b[0] && Subsequence(a[1..], b[1..])
    decreases |b|
  {
    if |a| == 1 {
      assert a[1..] == [];
    } else if a[|a| - 1] == b[|b| - 1] {
      SubsequenceFacts(a[..|a| - 1], b[..|b| - 1]);
      assert |b| > 1 && b[|b| - 1] != b[0];
      assert a == a[..|a| - 1] + [a[|a| - 1]];
      HeadShared(a[..|a| - 1], b[..|b| - 1]);
      assert a[1..][..|a| - 2] == a[..|a| - 1][1..] && b[1..][..|b| - 2] == b[..|b| - 1][1..];
    } else {
      SubsequenceFacts(a, b[..|b| - 1]);
      HeadShared(a, b[..|b| - 1]);
      assert b[1..][..|b| - 2] == b[..|b| - 1][1..];
      assert b[1..] == b[..|b| - 1][1..] + [b[|b| - 1]];
      SubsequenceWider(a[1..], b[..|b| - 1][1..], b[|b| - 1]);
    }
  }

  /** The keys of a smaller cache lie within those of a larger one, in recency order,
      and the larger holds no more extra keys than it has extra room. */
  ghost predicate Included<K>(small: seq<K>, m: nat, large: seq<K>, n: nat) {
    Subsequence(small, large) && Distinct(large) && |small| <= m && |large| <= n && |large| - |small| <= n - m
  }

  lemma DistinctTail<K>(keys: seq<K>)
    requires Distinct(keys) && keys != []
    ensures Distinct(keys[1..])
  {
  }

  lemma NewestOneMore<K>(keys: seq<K>, max: nat)
    requires |keys| <= max + 1
    ensures Newest(keys, max) == if |keys| > max then keys[1..] else keys
  {
  }

  lemma InsertIncluded<K>(small: seq<K>, m: nat, large: seq<K>, n: nat, key: K)
    requires 1 <= m <= n && Included(small, m, large, n) && key !in large
    ensures Included(Newest(small + [key], m), m, Newest(large + [key], n), n)
  {
    hide Subsequence, Newest, Distinct;
    var s, l := small + [key], large + [key];
    SubsequencePut(small, large, key);
    DistinctPut(large, key);
    NewestOneMore(s, m);
    NewestOneMore(l, n);
    if |l| > n {
      DistinctTail(l);
      if l[0] in s {
        HeadShared(s, l);
      } else {
        SubsequenceHead(s, l);
        SubsequenceTail(s, l[1..]);
      }
    } else if |s| > m {
      SubsequenceTail(s, l);
    }
  }

  lemma TouchIncluded<K>(small: seq<K>, m: nat, large: seq<K>, n: nat, key: K)
    requires 1 <= m <= n && Included(small, m, large, n) && key in large
    ensures Included(Less(small, key) + [key], m, Less(large, key) + [key], n) || key !in small
    ensures key !in small ==> Included(small, m, Less(large, key) + [key], n)
    ensures key !in small ==> Included(Newest(small + [key], m), m, Less(large, key) + [key], n)
    ensures Included(Less(small, key), m, Less(large, key), n)
  {
    hide Subsequence, Less;
    LessFacts(large, key);
    LessFacts(small, key);
    LessDistinct(large, key);
    DistinctPut(Less(large, key), key);
    SubsequenceLess(small, large, key);
    SubsequenceFacts(small, large);
    SubsequencePut(Less(small, key), Less(large, key), key);
    LessSize(large, key);
    if key in small {
      SubsequenceDistinct(small, large);
      LessSize(small, key);
    } else {
      LessAbsent(small, key);
      SubsequenceWider(small, Less(large, key), key);
      if |small| + 1 > m { SubsequenceTail(small + [key], Less(large, key) + [key]); }
    }
  }

  lemma {:induction false} LessSize<K>(keys: seq<K>, key: K)
    requires Distinct(keys) && key in keys
    ensures |Less(keys, key)| == |keys| - 1
  {
    var front, last := keys[..|keys| - 1], keys[|keys| - 1];
    assert keys == front + [last];
    if last == key {
      forall i | 0 <= i < |front| ensures front[i] != key { assert keys[i] != keys[|front|]; }
      LessAbsent(front, key);
    } else {
      LessSize(front, key);
    }
  }

  lemma {:induction false} SubsequenceDistinct<K>(a: seq<K>, b: seq<K>)
    requires Subsequence(a, b) && Distinct(b)
    ensures Distinct(a)
  {
    if a != [] {
      var front, last := b[..|b| - 1], b[|b| - 1];
      if a[|a| - 1] == last {
        SubsequenceDistinct(a[..|a| - 1], front);
        SubsequenceFacts(a[..|a| - 1], front);
        forall i | 0 <= i < |front| ensures front[i] != last { assert b[i] != b[|front|]; }
        DistinctPut(a[..|a| - 1], last);
        assert a == a[..|a| - 1] + [last];
      } else {
        SubsequenceDistinct(a, front);
      }
    }
  }

  /** Each operation, made on both caches, keeps the smaller within the larger. */
  lemma StepIncluded<K, V>(op: Op<K, V>, small: seq<K>, m: nat, large: seq<K>, n: nat)
    requires 1 <= m <= n && Included(small, m, large, n)
    ensures Included(KeysAfter(op, small, m), m, KeysAfter(op, large, n), n)
  {
    SubsequenceFacts(small, large);
    hide Subsequence, Less, Newest, Distinct;
    if op.Clear? {
      EmptyIncluded<K>(m, n);
    } else if op.key in large {
      TouchIncluded(small, m, large, n, op.key);
    } else {
      LessAbsent(small, op.key);
      LessAbsent(large, op.key);
      if op.Set? || op.SetDefault? { InsertIncluded(small, m, large, n, op.key); }
    }
  }

  lemma EmptyIncluded<K>(m: nat, n: nat)
    requires m <= n
    ensures Included<K>([], m, [], n)
  {
  }

  /** A cache of max entries after a series of operations, empty at first. */
  function Run<K(==), V>(ops: seq<Op<K, V>>, max: nat): Data<K, V> {
    if ops == [] then [] else After(ops[|ops| - 1], Run(ops[..|ops| - 1], max), max)
  }

  /** LRU inclusion: the same operations on caches of m and of n >= m entries leave the
      smaller one's keys a subsequence of the larger one's. */
  lemma {:induction false} Inclusion<K, V>(ops: seq<Op<K, V>>, m: nat, n: nat)
    requires 1 <= m <= n
    ensures Included(Keys(Run(ops, m)), m, Keys(Run(ops, n)), n)
  {
    hide Keys, After, Included, KeysAfter;
    if ops == [] {
      KeysNone<K, V>();
      EmptyIncluded<K>(m, n);
    } else {
      var before, op := ops[..|ops| - 1], ops[|ops| - 1];
      Inclusion(before, m, n);
      KeysOfAfter(op, Run(before, m), m);
      KeysOfAfter(op, Run(before, n), n);
      StepIncluded(op, Keys(Run(before, m)), m, Keys(Run(before, n)), n);
    }
  }

  /** Growing the cache never turns a hit into a miss. */
  lemma HitStaysHit<K, V>(ops: seq<Op<K, V>>, m: nat, n: nat, key: K)
    requires 1 <= m <= n && Lookup(Run(ops, m), key).Some?
    ensures Lookup(Run(ops, n), key).Some?
  {
    hide Keys, Run, Lookup, Subsequence, Distinct;
    Inclusion(ops, m, n);
    LookupKeys(Run(ops, m), key);
    LookupKeys(Run(ops, n), key);
    SubsequenceFacts(Keys(Run(ops, m)), Keys(Run(ops, n)));
  }

  // ---------------------------------------------------------------- values

  /** The value last stored under a key and not removed since, whether or not evicted. */
  function LastStored<K(==), V>(ops: seq<Op<K, V>>, max: nat, key: K): Option<V> {
    if ops == [] then None
    else
      var op, before := ops[|ops| - 1], ops[..|ops| - 1];
      match op
      case Set(k, value) => if k == key then Some(value) else LastStored(before, max, key)
      case SetDefault(k, value) =>
        if k == key && Lookup(Run(before, max), key).None? then Some(value) else LastStored(before, max, key)
      case Delete(k) => if k == key then None else LastStored(before, max, key)
      case Pop(k, _) => if k == key then None else LastStored(before, max, key)
      case Clear => None
      case _ => LastStored(before, max, key)
  }

  lemma {:induction false} LookupWithout<K, V>(data: Data<K, V>, removed: K, key: K)
    ensures Lookup(Without(data, removed), key) == if key == removed then None else Lookup(data, key)
  {
    if data != [] {
      var front, last := data[..|data| - 1], data[|data| - 1];
      LookupWithout(front, removed, key);
      if last.0 != removed {
        assert (Without(front, removed) + [last])[..|Without(front, removed) + [last]| - 1] == Without(front, removed);
      } else {
        assert Without(front, removed) + [] == Without(front, removed);
      }
    }
  }

  lemma LookupPut<K, V>(data: Data<K, V>, entry: (K, V), key: K)
    ensures Lookup(data + [entry], key) == if entry.0 == key then Some(entry.1) else Lookup(data, key)
  {
    assert (data + [entry])[..|data + [entry]| - 1] == data;
  }

  lemma {:induction false} LookupSuffix<K, V>(data: Data<K, V>, from: nat, key: K)
    requires from <= |data| && Lookup(data[from..], key).Some?
    ensures Lookup(data[from..], key) == Lookup(data, key)
  {
    if from < |data| && data[|data| - 1].0 != key {
      assert data[from..][..|data| - from - 1] == data[..|data| - 1][from..];
      LookupSuffix(data[..|data| - 1], from, key);
    }
  }

  /** After an operation a key is either gone or has the value it should have. */
  lemma LookupAfter<K, V>(op: Op<K, V>, data: Data<K, V>, max: nat, key: K)
    ensures var found := Lookup(After(op, data, max), key);
            found.None? ||
            found == if op.Set? && op.key == key then Some(op.value)
                     else if op.SetDefault? && op.key == key && Lookup(data, key).None? then Some(op.value)
                     else Lookup(data, key)
    ensures op.Clear? || ((op.Delete? || op.Pop?) && op.key == key) ==> Lookup(After(op, data, max), key).None?
  {
    hide Without, Lookup;
    if op.Clear? {
      LookupNone<K, V>(key);
    } else {
      LookupWithout(data, op.key, key);
      var found := Lookup(data, op.key);
      if found.Some? { LookupPut(Without(data, op.key), (op.key, found.value), key); }
      if op.Set? || op.SetDefault? {
        LookupPut(Without(data, op.key), (op.key, op.value), key);
        LookupPut(data, (op.key, op.value), key);
        var put := data + [(op.key, op.value)];
        if |put| > max && Lookup(put[|put| - max..], key).Some? { LookupSuffix(put, |put| - max, key); }
      }
    }
  }

  lemma LookupNone<K, V>(key: K)
    ensures Lookup<K, V>([], key).None?
  {
  }

  /** Every hit returns the value last stored under its key. */
  lemma {:induction false} HitIsLastStored<K, V>(ops: seq<Op<K, V>>, max: nat, key: K)
    requires Lookup(Run(ops, max), key).Some?
    ensures Lookup(Run(ops, max), key) == LastStored(ops, max, key)
  {
    hide Lookup, After;
    if ops == [] {
      LookupNone<K, V>(key);
    } else {
      var op, before := ops[|ops| - 1], ops[..|ops| - 1];
      LookupAfter(op, Run(before, max), max, key);
      if Lookup(Run(before, max), key).Some? { HitIsLastStored(before, max, key); }
    }
  }

  /** No operation of a series is a setdefault. */
  predicate PlainStores<K(==), V(==)>(ops: seq<Op<K, V>>) {
    forall i :: 0 <= i < |ops| ==> !ops[i].SetDefault?
  }

  lemma {:induction false} LastStoredIgnoresSize<K, V>(ops: seq<Op<K, V>>, m: nat, n: nat, key: K)
    requires PlainStores(ops)
    ensures LastStored(ops, m, key) == LastStored(ops, n, key)
  {
    if ops != [] { LastStoredIgnoresSize(ops[..|ops| - 1], m, n, key); }
  }

  /** Without setdefault a hit in the smaller cache is the same hit in the larger. */
  lemma PlainSameHit<K, V>(ops: seq<Op<K, V>>, m: nat, n: nat, key: K)
    requires 1 <= m <= n && PlainStores(ops) && Lookup(Run(ops, m), key).Some?
    ensures Lookup(Run(ops, n), key) == Lookup(Run(ops, m), key)
  {
    hide Run, Lookup, LastStored;
    HitStaysHit(ops, m, n, key);
    HitIsLastStored(ops, m, key);
    HitIsLastStored(ops, n, key);
    LastStoredIgnoresSize(ops, m, n, key);
  }

  /** Every hit in the smaller cache is the same hit in the larger. */
  ghost predicate SameHits<K(!new), V>(ops: seq<Op<K, V>>, m: nat, n: nat) {
    forall key :: SameHit<K, V>(ops, m, n, key)
  }

  ghost predicate SameHit<K(!new), V>(ops: seq<Op<K, V>>, m: nat, n: nat, key: K) {
    Lookup(Run(ops, m), key).Some? ==> Lookup(Run(ops, n), key) == Lookup(Run(ops, m), key)
  }

  /** Operation i is a setdefault that stores a value in the smaller cache while the
      larger one still holds another value. */
  ghost predicate Forks<K, V>(ops: seq<Op<K, V>>, m: nat, n: nat, i: nat)
    requires i < |ops|
  {
    && ops[i].SetDefault?
    && Lookup(Run(ops[..i], m), ops[i].key).None?
    && Lookup(Run(ops[..i], n), ops[i].key).Some?
    && Lookup(Run(ops[..i], n), ops[i].key).value != ops[i].value
  }

  lemma RunStep<K, V>(ops: seq<Op<K, V>>, max: nat)
    requires ops != []
    ensures Run(ops, max) == After(ops[|ops| - 1], Run(ops[..|ops| - 1], max), max)
  {
  }

  lemma LookupNewest<K, V>(data: Data<K, V>, entry: (K, V), max: nat)
    requires max >= 1
    ensures Lookup(Newest(data + [entry], max), entry.0) == Some(entry.1)
  {
    var newest := Newest(data + [entry], max);
    assert newest != [] && newest[|newest| - 1] == entry;
  }

  /** A setdefault leaves the value found, or else the one given. */
  lemma SetDefaultLeaves<K, V>(data: Data<K, V>, key: K, value: V, max: nat)
    requires max >= 1
    ensures Lookup(After(SetDefault(key, value), data, max), key) ==
            if Lookup(data, key).Some? then Lookup(data, key) else Some(value)
  {
    hide Lookup, Without, Newest;
    match Lookup(data, key) {
      case Some(found) => LookupPut(Without(data, key), (key, found), key);
      case None => LookupNewest(data, (key, value), max);
    }
  }

  /** One more operation on caches with the same hits. */
  lemma SameHitStep<K(!new), V>(ops: seq<Op<K, V>>, m: nat, n: nat, key: K)
    requires 1 <= m <= n && ops != [] && SameHits(ops[..|ops| - 1], m, n) && !Forks(ops, m, n, |ops| - 1)
    ensures SameHit(ops, m, n, key)
  {
    var op, before := ops[|ops| - 1], ops[..|ops| - 1];
    assert SameHit(before, m, n, key);
    hide Lookup, After, Run, SameHits;
    RunStep(ops, m);
    RunStep(ops, n);
    if Lookup(Run(ops, m), key).Some? {
      HitStaysHit(ops, m, n, key);
      LookupAfter(op, Run(before, m), m, key);
      LookupAfter(op, Run(before, n), n, key);
    }
  }

  lemma ForkShows<K(!new), V>(ops: seq<Op<K, V>>, m: nat, n: nat)
    requires 1 <= m <= n && ops != [] && Forks(ops, m, n, |ops| - 1)
    ensures !SameHit(ops, m, n, ops[|ops| - 1].key)
  {
    var op, before := ops[|ops| - 1], ops[..|ops| - 1];
    hide Lookup, After, Run;
    RunStep(ops, m);
    RunStep(ops, n);
    SetDefaultLeaves(Run(before, m), op.key, op.value, m);
    SetDefaultLeaves(Run(before, n), op.key, op.value, n);
  }

  lemma {:induction false} SameUntilFork<K(!new), V>(ops: seq<Op<K, V>>, m: nat, n: nat)
    requires 1 <= m <= n && forall i: nat :: i < |ops| ==> !Forks(ops, m, n, i)
    ensures SameHits(ops, m, n)
  {
    if ops == [] {
      forall key ensures SameHit(ops, m, n, key) { LookupNone<K, V>(key); }
    } else {
      var before := ops[..|ops| - 1];
      forall i: nat | i < |before| ensures !Forks(before, m, n, i) { ForkInPrefix(ops, m, n, |before|, i); }
      SameUntilFork(before, m, n);
      forall key ensures SameHit(ops, m, n, key) { SameHitStep(ops, m, n, key); }
    }
  }

  lemma ForkIs<K, V>(ops: seq<Op<K, V>>, m: nat, n: nat, i: nat)
    requires i < |ops| && Forks(ops, m, n, i)
    ensures ops[i].SetDefault?
  {
  }

  lemma ForkInPrefix<K, V>(ops: seq<Op<K, V>>, m: nat, n: nat, k: nat, i: nat)
    requires i < k <= |ops|
    ensures Forks(ops[..k], m, n, i) == Forks(ops, m, n, i)
  {
    hide Run, Lookup;
    assert ops[..k][..i] == ops[..i];
  }

  /** The two caches have the same hits all along exactly when no setdefault stores a
      value in the smaller one while the larger holds another. */
  lemma SameHitsExactlyWithoutForks<K(!new), V>(ops: seq<Op<K, V>>, m: nat, n: nat)
    requires 1 <= m <= n
    ensures (forall k: nat :: k <= |ops| ==> SameHits(ops[..k], m, n)) <==>
            (forall i: nat :: i < |ops| ==> !Forks(ops, m, n, i))
  {
    hide Forks, SameHit, Run;
    if forall i: nat :: i < |ops| ==> !Forks(ops, m, n, i) {
      forall k: nat | k <= |ops| ensures SameHits(ops[..k], m, n) {
        forall i: nat | i < k ensures !Forks(ops[..k], m, n, i) { ForkInPrefix(ops, m, n, k, i); }
        SameUntilFork(ops[..k], m, n);
      }
    } else {
      var i: nat :| i < |ops| && Forks(ops, m, n, i);
      ForkInPrefix(ops, m, n, i + 1, i);
      var prefix := ops[..i + 1];
      assert prefix[i] == ops[i] && ops[i].SetDefault? by { ForkIs(ops, m, n, i); }
      ForkShows(prefix, m, n);
      assert !SameHit(prefix, m, n, prefix[i].key);
      assert !SameHits(prefix, m, n);
    }
  }

  lemma TwoStored<K, V>(a: K, x: V, b: K, y: V, max: nat)
    requires a != b && 1 <= max <= 2
    ensures Run([Set(a, x), Set(b, y)], max) == if max == 1 then [(b, y)] else [(a, x), (b, y)]
  {
    var first, both := [Set(a, x)], [Set(a, x), Set(b, y)];
    assert both[..1] == first && first[..0] == [];
    assert Run(first, max) == [(a, x)] by { LookupNone<K, V>(a); }
    RunStep(both, max);
    LookupNone<K, V>(b);
    LookupPut([], (a, x), b);
    assert [] + [(a, x)] == [(a, x)] && [(a, x)] + [(b, y)] == [(a, x), (b, y)] && [(a, x), (b, y)][1..] == [(b, y)];
    hide Run, Lookup, Without;
    assert Run(both, max) == Stored([(a, x)], b, y, max);
  }

  /** With setdefault two caches can hit with different values: the larger one still has
      the entry that the smaller one has evicted and stores anew. */
  lemma SetDefaultDiffers<K, V>(a: K, b: K, x: V, y: V, z: V)
    requires a != b && x != z
    ensures var ops := [Set(a, x), Set(b, y), SetDefault(a, z)];
            Lookup(Run(ops, 1), a) == Some(z) && Lookup(Run(ops, 2), a) == Some(x) && Forks(ops, 1, 2, 2)
  {
    var ops := [Set(a, x), Set(b, y), SetDefault(a, z)];
    assert ops[..2] == [Set(a, x), Set(b, y)];
    TwoStored(a, x, b, y, 1);
    TwoStored(a, x, b, y, 2);
    hide Run, Lookup, After;
    LookupNone<K, V>(a);
    LookupPut([], (a, x), a);
    LookupPut([], (b, y), a);
    LookupPut([(a, x)], (b, y), a);
    assert [] + [(a, x)] == [(a, x)] && [] + [(b, y)] == [(b, y)] && [(a, x)] + [(b, y)] == [(a, x), (b, y)];
    RunStep(ops, 1);
    RunStep(ops, 2);
    assert Run(ops[..2], 1) == [(b, y)] && Run(ops[..2], 2) == [(a, x), (b, y)];
    assert ops[2] == SetDefault(a, z);
    SetDefaultLeaves([(b, y)], a, z, 1);
    SetDefaultLeaves([(a, x), (b, y)], a, z, 2);
  }

  // ---------------------------------------------------------------- operations, place by place

  predicate IsAt<K(==), V>(data: Data<K, V>, key: K, at: nat) {
    at < |data| && data[at].0 == key
  }

  /** The entry at a place is gone and the given ones follow the others. */
  predicate IsMoved<K(==), V(==)>(before: Data<K, V>, after: Data<K, V>, at: nat, last: Data<K, V>)
    requires at < |before|
  {
    after == before[..at] + before[at + 1..] + last
  }

  /** A new entry comes last; in a full cache the first one goes. */
  predicate IsAdded<K(==), V(==)>(before: Data<K, V>, after: Data<K, V>, entry: (K, V), max: nat) {
    after == (if |before| >= max && before != [] then before[1..] else before) + [entry]
  }

  /** What an operation does to the entries and hands back when the key stands at a place. */
  predicate DoesHit<K(==), V(==)>(op: Op<K, V>, before: Data<K, V>, after: Data<K, V>, answer: Option<V>, at: nat)
    requires at < |before|
  {
    var value := before[at].1;
    match op
    case Get(key, _) => answer == Some(value) && IsMoved(before, after, at, [(key, value)])
    case GetItem(key) => answer == Some(value) && IsMoved(before, after, at, [(key, value)])
    case Set(key, changed) => IsMoved(before, after, at, [(key, changed)])
    case SetDefault(key, _) => answer == Some(value) && IsMoved(before, after, at, [(key, value)])
    case Delete(_) => answer == Some(value) && IsMoved(before, after, at, [])
    case Pop(_, _) => answer == Some(value) && IsMoved(before, after, at, [])
    case Clear => after == []
  }

  /** And when the key is missing. */
  predicate DoesMiss<K(==), V(==)>(op: Op<K, V>, before: Data<K, V>, after: Data<K, V>, answer: Option<V>, max: nat) {
    match op
    case Get(_, fallback) => answer == Some(fallback) && after == before
    case GetItem(_) => answer == None && after == before
    case Set(key, value) => IsAdded(before, after, (key, value), max)
    case SetDefault(key, value) => answer == Some(value) && IsAdded(before, after, (key, value), max)
    case Delete(_) => answer == None && after == before
    case Pop(_, fallback) => answer == Some(fallback) && after == before
    case Clear => after == []
  }

  lemma HitAt<K, V>(data: Data<K, V>, key: K, at: nat)
    requires Distinct(Keys(data)) && IsAt(data, key, at)
    ensures Lookup(data, key) == Some(data[at].1)
    ensures Without(data, key) == data[..at] + data[at + 1..]
  {
    hide Without, Lookup, Position, Keys, Distinct;
    PositionSplits(data, key);
    OnlyPlace(data, key, at);
  }

  lemma AbsentBefore<K, V>(data: Data<K, V>, key: K, n: nat)
    requires n <= |data| && Absent(data[..n], key)
    ensures forall i :: 0 <= i < n ==> data[i].0 != key
  {
    var front := data[..n];
    forall i | 0 <= i < n ensures data[i].0 != key { assert front[i] == data[i]; }
  }

  lemma OnlyPlace<K, V>(data: Data<K, V>, key: K, at: nat)
    requires Distinct(Keys(data)) && IsAt(data, key, at)
    ensures Position(data, key) == at
  {
    hide Position, Keys, Absent;
    PositionIs(data, key);
    KeysAt(data);
    AbsentBefore(data, key, Position(data, key));
    assert Keys(data)[Position(data, key)] == Keys(data)[at];
  }

  /** Every operation on a key that stands at a place, entry by entry. */
  lemma HitDoes<K, V>(op: Op<K, V>, data: Data<K, V>, max: nat, at: nat)
    requires Distinct(Keys(data)) && !op.Clear? && IsAt(data, op.key, at)
    ensures DoesHit(op, data, After(op, data, max), Answer(op, data), at)
  {
    hide Without, Lookup, Keys, Distinct;
    HitAt(data, op.key, at);
  }

  lemma NewestPut<T>(items: seq<T>, item: T, max: nat)
    requires |items| <= max && max >= 1
    ensures Newest(items + [item], max) == (if |items| >= max then items[1..] else items) + [item]
  {
  }

  /** Every operation on a missing key. */
  lemma MissDoes<K, V>(op: Op<K, V>, data: Data<K, V>, max: nat)
    requires max >= 1 && |data| <= max && !op.Clear? && Absent(data, op.key)
    ensures DoesMiss(op, data, After(op, data, max), Answer(op, data), max)
  {
    hide Without, Lookup, Absent, Newest;
    WithoutAbsent(data, op.key);
    if op.Set? || op.SetDefault? { NewestPut(data, (op.key, op.value), max); }
  }
}
