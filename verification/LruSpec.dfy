/** The recency order that LegacyLruCache (common/lru.h) must implement: a
    sequence of key/value pairs, most recently used first, bounded by a capacity. */
module LruSpec {
  import opened Optional
  import opened Sequences

  /** One call on the cache.  Find, Get and HasKey are all a Lookup; Overwrite is a
      store through the pointer that Find returned, which does not warm the key. */
  datatype Op<K, V> =
    | Lookup(key: K)
    | Overwrite(key: K, value: V)
    | Put(key: K, value: V)
    | Remove(key: K)
    | Clear

  /** Position of key k in the recency order, or |s| when it is absent. */
  function Index<K(==), V>(s: seq<(K, V)>, k: K): (i: nat)
    ensures i <= |s|
    ensures i < |s| ==> s[i].0 == k
    ensures forall j :: 0 <= j < i ==> s[j].0 != k
  {
    if |s| == 0 || s[0].0 == k then 0 else 1 + Index(s[1..], k)
  }

  predicate Has<K(==), V>(s: seq<(K, V)>, k: K) {
    Index(s, k) < |s|
  }

  function ValueOf<K(==), V>(s: seq<(K, V)>, k: K): (v: V)
    requires Has(s, k)
  {
    s[Index(s, k)].1
  }

  ghost predicate DistinctKeys<K, V>(s: seq<(K, V)>) {
    forall i, j :: 0 <= i < j < |s| ==> s[i].0 != s[j].0
  }

  ghost function KeySet<K, V>(s: seq<(K, V)>): set<K> {
    set i | 0 <= i < |s| :: s[i].0
  }

  /** The state after one call. */
  function Apply<K(==), V>(s: seq<(K, V)>, capacity: nat, op: Op<K, V>): (r: seq<(K, V)>) {
    match op
    case Lookup(k) =>
      var i := Index(s, k);
      if i < |s| then [s[i]] + EraseAt(s, i) else s
    case Overwrite(k, v) =>
      var i := Index(s, k);
      if i < |s| then s[i := (k, v)] else s
    case Put(k, v) =>
      var i := Index(s, k);
      if i < |s| then [(k, v)] + EraseAt(s, i)
      else if |s| == capacity && capacity > 0 then [(k, v)] + s[..|s| - 1]
      else [(k, v)] + s
    case Remove(k) =>
      var i := Index(s, k);
      if i < |s| then EraseAt(s, i) else s
    case Clear => []
  }

  /** The node that a call pushes out of the cache. */
  function Evicted<K(==), V>(s: seq<(K, V)>, capacity: nat, op: Op<K, V>): (r: Option<(K, V)>) {
    if op.Put? && !Has(s, op.key) && |s| == capacity && capacity > 0 then Some(s[|s| - 1]) else None
  }

  /** The state after a whole run of calls on an empty cache. */
  function Run<K(==), V>(ops: seq<Op<K, V>>, capacity: nat): (s: seq<(K, V)>) {
    if ops == [] then [] else Apply(Run(ops[..|ops| - 1], capacity), capacity, ops[|ops| - 1])
  }

  lemma RunSnoc<K, V>(ops: seq<Op<K, V>>, capacity: nat, op: Op<K, V>)
    ensures Run(ops + [op], capacity) == Apply(Run(ops, capacity), capacity, op)
  {
    assert (ops + [op])[..|ops|] == ops;
  }

  ghost predicate Bounded<K, V>(s: seq<(K, V)>, capacity: nat) {
    DistinctKeys(s) && |s| <= capacity
  }

  lemma ErasedAt<K, V>(s: seq<(K, V)>, p: nat, i: nat)
    requires p < |s| && i < |s| - 1
    ensures EraseAt(s, p)[i] == s[if i < p then i else i + 1]
  {
  }

  /** Erasing a position leaves distinct keys, and none that was there. */
  lemma EraseDistinct<K, V>(s: seq<(K, V)>, p: nat)
    requires p < |s| && DistinctKeys(s)
    ensures DistinctKeys(EraseAt(s, p)) && forall i :: 0 <= i < |s| - 1 ==> EraseAt(s, p)[i].0 != s[p].0
  {
    forall i, j | 0 <= i < j < |s| - 1 ensures EraseAt(s, p)[i].0 != EraseAt(s, p)[j].0 {
      ErasedAt(s, p, i);
      ErasedAt(s, p, j);
    }
    forall i | 0 <= i < |s| - 1 ensures EraseAt(s, p)[i].0 != s[p].0 {
      ErasedAt(s, p, i);
    }
  }

  lemma PushDistinct<K, V>(x: (K, V), s: seq<(K, V)>)
    requires DistinctKeys(s) && forall i :: 0 <= i < |s| ==> s[i].0 != x.0
    ensures DistinctKeys([x] + s)
  {
    forall i, j | 0 <= i < j < |s| + 1 ensures ([x] + s)[i].0 != ([x] + s)[j].0 {
      assert ([x] + s)[j] == s[j - 1];
      assert i > 0 ==> ([x] + s)[i] == s[i - 1];
    }
  }

  lemma ApplyBounded<K, V>(s: seq<(K, V)>, capacity: nat, op: Op<K, V>)
    requires capacity > 0 && Bounded(s, capacity)
    ensures Bounded(Apply(s, capacity, op), capacity)
  {
    if !op.Clear? {
      var p := Index(s, op.key);
      if op.Overwrite? {
        OverwriteBounded(s, capacity, op);
      } else if p < |s| {
        EraseDistinct(s, p);
        if op.Lookup? {
          PushDistinct(s[p], EraseAt(s, p));
        } else if op.Put? {
          PushDistinct((op.key, op.value), EraseAt(s, p));
        }
      } else if op.Put? {
        PushDistinct((op.key, op.value), if |s| == capacity then s[..|s| - 1] else s);
      }
    }
  }

  lemma OverwriteBounded<K, V>(s: seq<(K, V)>, capacity: nat, op: Op<K, V>)
    requires capacity > 0 && Bounded(s, capacity) && op.Overwrite?
    ensures Bounded(Apply(s, capacity, op), capacity)
  {
    var r := Apply(s, capacity, op);
    assert |r| == |s| && forall i :: 0 <= i < |s| ==> r[i].0 == s[i].0;
  }

  lemma {:induction false} RunBounded<K, V>(ops: seq<Op<K, V>>, capacity: nat)
    requires capacity > 0
    ensures Bounded(Run(ops, capacity), capacity)
  {
    if ops != [] {
      RunBounded(ops[..|ops| - 1], capacity);
      ApplyBounded(Run(ops[..|ops| - 1], capacity), capacity, ops[|ops| - 1]);
    }
  }

  // ----- What a run did to a key, read off the calls alone -----

  predicate Drops<K(==), V>(op: Op<K, V>, k: K) {
    op.Clear? || (op.Remove? && op.key == k)
  }

  /** What the calls so far say about one key k: it is out, or it is in and `ahead`
      are the other keys put or hit since k was, less those removed again. */
  datatype Window<K> = Out | In(ahead: set<K>)

  /** One more call, which puts or hits the key `touched`, if any. */
  ghost function NextWindow<K, V>(w: Window<K>, touched: Option<K>, capacity: nat, op: Op<K, V>, k: K): Window<K> {
    if touched == Some(k) then In({})
    else if w.Out? || Drops(op, k) then Out
    else if touched.Some? then
      (if |w.ahead + {touched.value}| < capacity then In(w.ahead + {touched.value}) else Out)
    else if op.Remove? then In(w.ahead - {op.key})
    else w
  }

  ghost function WindowOf<K, V>(ops: seq<Op<K, V>>, capacity: nat, k: K): Window<K>
    decreases |ops|, 0
  {
    if ops == [] then Out
    else
      var before, op := ops[..|ops| - 1], ops[|ops| - 1];
      NextWindow(WindowOf(before, capacity, k), TouchedBy(before, capacity, op), capacity, op, k)
  }

  /** The key that a call made after the calls `before` puts or hits: a lookup hits exactly
      when those calls leave its key in.  A lookup of an absent key touches nothing. */
  ghost function TouchedBy<K, V>(before: seq<Op<K, V>>, capacity: nat, op: Op<K, V>): Option<K>
    decreases |before|, 1
  {
    if op.Put? || (op.Lookup? && WindowOf(before, capacity, op.key).In?) then Some(op.key) else None
  }

  /** 1 + the number of the last call of the run that put or hit k; 0 if none did. */
  ghost function LastTouch<K, V>(ops: seq<Op<K, V>>, capacity: nat, k: K): (t: nat)
    ensures t <= |ops|
  {
    if ops == [] then 0
    else
      var before := ops[..|ops| - 1];
      if TouchedBy(before, capacity, ops[|ops| - 1]) == Some(k) then |ops|
      else LastTouch(before, capacity, k)
  }

  /** The value last stored under k by the run, through Put or through Find's pointer. */
  ghost function LastStored<K, V>(ops: seq<Op<K, V>>, capacity: nat, k: K): (v: Option<V>) {
    if ops == [] then None
    else
      var before, op := ops[..|ops| - 1], ops[|ops| - 1];
      if op.Put? && op.key == k then Some(op.value)
      else if op.Overwrite? && op.key == k && WindowOf(before, capacity, k).In? then Some(op.value)
      else LastStored(before, capacity, k)
  }

  // ----- The recency order itself -----

  /** The key that a call on the list s puts or hits. */
  ghost function TouchedIn<K, V>(s: seq<(K, V)>, op: Op<K, V>): Option<K> {
    if op.Put? || (op.Lookup? && Has(s, op.key)) then Some(op.key) else None
  }

  ghost predicate SortedByTouch<K, V>(s: seq<(K, V)>, ops: seq<Op<K, V>>, capacity: nat) {
    && (forall i :: 0 <= i < |s| ==> LastTouch(ops, capacity, s[i].0) > 0)
    && (forall i, j :: 0 <= i < j < |s| ==>
          LastTouch(ops, capacity, s[i].0) > LastTouch(ops, capacity, s[j].0))
  }

  /** Recency order over every run: the list is sorted by last touch, latest first. */
  lemma {:induction false} RunSortedByTouch<K, V>(ops: seq<Op<K, V>>, capacity: nat)
    requires capacity > 0
    ensures SortedByTouch(Run(ops, capacity), ops, capacity)
  {
    if ops != [] {
      var before, op := ops[..|ops| - 1], ops[|ops| - 1];
      RunSortedByTouch(before, capacity);
      RunBounded(before, capacity);
      assert ops == before + [op];
      forall i, j | 0 <= i <= j < |Apply(Run(before, capacity), capacity, op)| {
        StepSortedByTouch(before, op, capacity, i, j);
      }
    }
  }

  /** Where entry i of the new order stood in the old one; -1 for the entry just touched. */
  ghost function Origin<K, V>(s: seq<(K, V)>, op: Op<K, V>, i: nat): (o: int) {
    if op.Clear? || op.Overwrite? then i
    else
      var p := Index(s, op.key);
      if op.Remove? then (if i < p then i else i + 1)
      else if op.Lookup? && p == |s| then i
      else if i == 0 then -1
      else if i <= p then i - 1
      else i
  }

  lemma OriginIs<K, V>(s: seq<(K, V)>, capacity: nat, op: Op<K, V>, i: nat)
    requires capacity > 0 && Bounded(s, capacity) && i < |Apply(s, capacity, op)|
    ensures var o, key := Origin(s, op, i), Apply(s, capacity, op)[i].0;
            if o == -1 then i == 0 && TouchedIn(s, op) == Some(key)
            else 0 <= o < |s| && s[o].0 == key && TouchedIn(s, op) != Some(key)
  {
    if op.Put? || (op.Lookup? && Has(s, op.key)) {
      OriginOfTouch(s, capacity, op, i);
    }
  }

  lemma OriginOfTouch<K, V>(s: seq<(K, V)>, capacity: nat, op: Op<K, V>, i: nat)
    requires capacity > 0 && Bounded(s, capacity) && i < |Apply(s, capacity, op)|
    requires op.Put? || (op.Lookup? && Has(s, op.key))
    ensures var o, key := Origin(s, op, i), Apply(s, capacity, op)[i].0;
            if i == 0 then o == -1 && key == op.key else 0 <= o < |s| && s[o].0 == key && key != op.key
  {
    var p := Index(s, op.key);
    if i > 0 {
      if p < |s| {
        HitOrigin(s, Apply(s, capacity, op)[0], p, i);
      } else {
        MissOrigin(s, (op.key, op.value), if |s| == capacity then s[..|s| - 1] else s, i);
      }
    }
  }

  /** Behind a key moved to the front. */
  lemma HitOrigin<K, V>(s: seq<(K, V)>, x: (K, V), p: nat, i: nat)
    requires DistinctKeys(s) && p < |s| && x.0 == s[p].0 && 0 < i < |s|
    ensures var r := [x] + EraseAt(s, p); var o := if i <= p then i - 1 else i;
            |r| == |s| && r[i] == s[o] && r[i].0 != x.0
  {
    ErasedAt(s, p, i - 1);
    assert ([x] + EraseAt(s, p))[i] == EraseAt(s, p)[i - 1];
  }

  /** Behind a new key. */
  lemma MissOrigin<K, V>(s: seq<(K, V)>, x: (K, V), t: seq<(K, V)>, i: nat)
    requires t <= s && 0 < i <= |t| && forall j :: 0 <= j < |s| ==> s[j].0 != x.0
    ensures ([x] + t)[i] == s[i - 1] && s[i - 1].0 != x.0
  {
    assert ([x] + t)[i] == t[i - 1];
  }

  lemma OriginIncreases<K, V>(s: seq<(K, V)>, capacity: nat, op: Op<K, V>, i: nat, j: nat)
    requires capacity > 0 && Bounded(s, capacity) && i < j < |Apply(s, capacity, op)|
    ensures Origin(s, op, i) < Origin(s, op, j)
  {
  }

  /** Stamp of an entry after one more call, from where the entry came from. */
  lemma StampAfter<K, V>(before: seq<Op<K, V>>, op: Op<K, V>, capacity: nat, i: nat)
    requires capacity > 0 && Bounded(Run(before, capacity), capacity)
    requires i < |Apply(Run(before, capacity), capacity, op)|
    ensures var s := Run(before, capacity); var o := Origin(s, op, i);
            -1 <= o < |s| &&
            LastTouch(before + [op], capacity, Apply(s, capacity, op)[i].0)
            == if o == -1 then |before| + 1 else LastTouch(before, capacity, s[o].0)
  {
    assert (before + [op])[..|before|] == before;
    OriginIs(Run(before, capacity), capacity, op, i);
    TouchedExactly(before, capacity, op);
  }

  lemma StepSortedByTouch<K, V>(before: seq<Op<K, V>>, op: Op<K, V>, capacity: nat, i: nat, j: nat)
    requires capacity > 0 && Bounded(Run(before, capacity), capacity)
    requires SortedByTouch(Run(before, capacity), before, capacity)
    requires i <= j < |Apply(Run(before, capacity), capacity, op)|
    ensures var r := Apply(Run(before, capacity), capacity, op);
            if i == j then LastTouch(before + [op], capacity, r[i].0) > 0
            else LastTouch(before + [op], capacity, r[i].0) > LastTouch(before + [op], capacity, r[j].0)
  {
    StampAfter(before, op, capacity, i);
    StampAfter(before, op, capacity, j);
    if i < j {
      OriginIncreases(Run(before, capacity), capacity, op, i, j);
    }
  }

  /** Whatever Put evicts was touched longest ago among all resident keys. */
  lemma EvictsLeastRecentlyTouched<K, V>(ops: seq<Op<K, V>>, capacity: nat, op: Op<K, V>, k: K)
    requires capacity > 0
    requires Evicted(Run(ops, capacity), capacity, op).Some?
    requires Has(Run(ops, capacity), k)
    ensures var victim := Evicted(Run(ops, capacity), capacity, op).value.0;
            && !Has(Apply(Run(ops, capacity), capacity, op), victim)
            && (k != victim ==> Has(Apply(Run(ops, capacity), capacity, op), k)
                                && LastTouch(ops, capacity, victim) < LastTouch(ops, capacity, k))
  {
    var s := Run(ops, capacity);
    RunSortedByTouch(ops, capacity);
    RunBounded(ops, capacity);
    PutEvictsLast(s, capacity, op, k);
  }

  lemma PutEvictsLast<K, V>(s: seq<(K, V)>, capacity: nat, op: Op<K, V>, k: K)
    requires capacity > 0 && Bounded(s, capacity) && Has(s, k)
    requires Evicted(s, capacity, op).Some?
    ensures var victim := Evicted(s, capacity, op).value.0;
            !Has(Apply(s, capacity, op), victim) && (k != victim ==> Has(Apply(s, capacity, op), k))
  {
    var r := Apply(s, capacity, op);
    IndexNone(r, s[|s| - 1].0);
    var i := Index(s, k);
    if i < |s| - 1 {
      assert r[i + 1] == s[i];
      HasAt(r, i + 1);
    }
  }

  lemma HasAt<K, V>(s: seq<(K, V)>, i: nat)
    requires i < |s|
    ensures Has(s, s[i].0)
  {
  }

  // ----- Residency -----

  ghost predicate Describes<K, V>(w: Window<K>, s: seq<(K, V)>, k: K) {
    if Has(s, k) then w == In(KeySet(s[..Index(s, k)])) else w == Out
  }

  lemma {:induction false} KeyCount<K, V>(s: seq<(K, V)>)
    requires DistinctKeys(s)
    ensures |KeySet(s)| == |s|
  {
    if s != [] {
      var t, x := s[..|s| - 1], s[|s| - 1];
      KeyCount(t);
      KeySetSnoc(t, x);
      assert s == t + [x];
      assert x.0 !in KeySet(t);
    }
  }

  lemma KeySetSnoc<K, V>(t: seq<(K, V)>, x: (K, V))
    ensures KeySet(t + [x]) == KeySet(t) + {x.0}
  {
    assert forall i :: 0 <= i < |t| ==> (t + [x])[i] == t[i];
    assert (t + [x])[|t|] == x;
  }

  /** Once the touched or erased position is known, Index of another key is too. */
  lemma IndexIs<K, V>(s: seq<(K, V)>, i: nat)
    requires i < |s| && DistinctKeys(s)
    ensures Index(s, s[i].0) == i
  {
  }

  lemma IndexNone<K, V>(s: seq<(K, V)>, k: K)
    requires forall i :: 0 <= i < |s| ==> s[i].0 != k
    ensures !Has(s, k)
  {
  }

  lemma TouchMovesToFront<K, V>(s: seq<(K, V)>, capacity: nat, op: Op<K, V>, k: K)
    requires capacity > 0 && Bounded(s, capacity) && TouchedIn(s, op) == Some(k)
    ensures Describes(In({}), Apply(s, capacity, op), k)
  {
    var r := Apply(s, capacity, op);
    assert r != [] && r[0].0 == k;
    assert Index(r, k) == 0;
  }

  lemma KeySetCons<K, V>(x: (K, V), t: seq<(K, V)>)
    ensures KeySet([x] + t) == {x.0} + KeySet(t)
  {
    assert forall i :: 0 <= i < |t| ==> ([x] + t)[i + 1] == t[i];
    assert ([x] + t)[0] == x;
  }

  lemma KeySetErase<K, V>(t: seq<(K, V)>, p: nat)
    requires p < |t| && DistinctKeys(t)
    ensures KeySet(EraseAt(t, p)) == KeySet(t) - {t[p].0}
  {
    var e := EraseAt(t, p);
    assert forall i :: 0 <= i < p ==> e[i] == t[i];
    assert forall i :: p < i < |t| ==> e[i - 1] == t[i];
    assert forall i :: p <= i < |e| ==> e[i] == t[i + 1];
  }

  /** Moving position p to the front leaves position i > p and the key set before it. */
  lemma ForwardWithin<K, V>(s: seq<(K, V)>, p: nat, i: nat, x: (K, V))
    requires p < i < |s| && DistinctKeys(s) && x.0 == s[p].0
    ensures var r := [x] + EraseAt(s, p); r[i] == s[i] && KeySet(r[..i]) == KeySet(s[..i]) + {x.0}
  {
    var r := [x] + EraseAt(s, p);
    assert EraseAt(s, p)[..i - 1] == EraseAt(s[..i], p);
    assert r[..i] == [x] + EraseAt(s[..i], p);
    KeySetErase(s[..i], p);
    KeySetCons(x, EraseAt(s[..i], p));
  }

  /** A touch of a key already ahead of k reorders only what is ahead of k. */
  lemma TouchAhead<K, V>(s: seq<(K, V)>, capacity: nat, op: Op<K, V>, k: K)
    requires capacity > 0 && Bounded(s, capacity) && Has(s, k)
    requires !op.Clear? && TouchedIn(s, op).Some? && Index(s, op.key) < Index(s, k)
    ensures var r := Apply(s, capacity, op);
            Has(r, k) && KeySet(r[..Index(r, k)]) == KeySet(s[..Index(s, k)]) + {op.key}
  {
    var i, p := Index(s, k), Index(s, op.key);
    var r := Apply(s, capacity, op);
    ApplyBounded(s, capacity, op);
    assert r == [r[0]] + EraseAt(s, p);
    ForwardWithin(s, p, i, r[0]);
    IndexIs(r, i);
  }

  /** A touch of any other key pushes k back one place, or out of a full cache. */
  lemma TouchBehind<K, V>(s: seq<(K, V)>, capacity: nat, op: Op<K, V>, k: K)
    requires capacity > 0 && Bounded(s, capacity) && Has(s, k)
    requires !op.Clear? && TouchedIn(s, op).Some? && Index(s, op.key) > Index(s, k)
    ensures var i := Index(s, k); var r := Apply(s, capacity, op);
            if i + 1 < capacity then Has(r, k) && KeySet(r[..Index(r, k)]) == KeySet(s[..i]) + {op.key}
            else !Has(r, k)
  {
    var i := Index(s, k);
    var r := Apply(s, capacity, op);
    ApplyBounded(s, capacity, op);
    PushedBack(s, capacity, op, i);
    if i + 1 < capacity {
      StillIn(s, r, i);
    } else {
      IndexNone(r, k);
    }
  }

  lemma StillIn<K, V>(s: seq<(K, V)>, r: seq<(K, V)>, i: nat)
    requires i < |s| && i + 1 < |r| && DistinctKeys(r) && r[i + 1] == s[i] && r[..i + 1] == [r[0]] + s[..i]
    ensures Has(r, s[i].0) && KeySet(r[..Index(r, s[i].0)]) == KeySet(s[..i]) + {r[0].0}
  {
    IndexIs(r, i + 1);
    KeySetCons(r[0], s[..i]);
  }

  /** Where the entries in front of the touched key's position go. */
  lemma {:induction false} PushedBack<K, V>(s: seq<(K, V)>, capacity: nat, op: Op<K, V>, i: nat)
    requires capacity > 0 && Bounded(s, capacity) && i < |s|
    requires !op.Clear? && TouchedIn(s, op).Some? && Index(s, op.key) > i
    ensures var r := Apply(s, capacity, op);
            if i + 1 < capacity then
              i + 1 < |r| && r[0].0 == op.key && r[i + 1] == s[i] && r[..i + 1] == [r[0]] + s[..i]
            else forall j :: 0 <= j < |r| ==> r[j].0 != s[i].0
  {
    var r := Apply(s, capacity, op);
    if i + 1 < capacity {
      assert r[..i + 1] == [r[0]] + s[..i];
    } else {
      assert forall j :: 1 <= j < |r| ==> r[j] == s[j - 1];
    }
  }

  /** A touch of another key evicts k exactly when that makes `capacity` keys ahead of it. */
  lemma {:induction false} OtherTouch<K, V>(s: seq<(K, V)>, capacity: nat, op: Op<K, V>, k: K)
    requires capacity > 0 && Bounded(s, capacity) && Has(s, k)
    requires !op.Clear? && TouchedIn(s, op).Some? && op.key != k
    ensures var front := KeySet(s[..Index(s, k)]) + {op.key};
            Describes(if |front| < capacity then In(front) else Out, Apply(s, capacity, op), k)
  {
    var i, p := Index(s, k), Index(s, op.key);
    KeyCount(s[..i]);
    if p < i {
      assert s[..i][p].0 == op.key;
      assert KeySet(s[..i]) + {op.key} == KeySet(s[..i]);
      TouchAhead(s, capacity, op, k);
    } else {
      assert op.key !in KeySet(s[..i]);
      TouchBehind(s, capacity, op, k);
    }
  }

  lemma {:induction false} OtherRemove<K, V>(s: seq<(K, V)>, capacity: nat, op: Op<K, V>, k: K)
    requires capacity > 0 && Bounded(s, capacity) && Has(s, k)
    requires op.Remove? && op.key != k
    ensures Describes(In(KeySet(s[..Index(s, k)]) - {op.key}), Apply(s, capacity, op), k)
  {
    var i, p := Index(s, k), Index(s, op.key);
    var r := Apply(s, capacity, op);
    ApplyBounded(s, capacity, op);
    if p < i {
      ErasedAt(s, p, i - 1);
      IndexIs(r, i - 1);
      assert r[..i - 1] == EraseAt(s[..i], p);
      KeySetErase(s[..i], p);
    } else {
      RemovedBehind(s, r, i, p);
      IndexIs(r, i);
      assert op.key !in KeySet(s[..i]);
    }
  }

  lemma RemovedBehind<K, V>(s: seq<(K, V)>, r: seq<(K, V)>, i: nat, p: nat)
    requires i < p <= |s| && i < |s| && r == if p < |s| then EraseAt(s, p) else s
    ensures i < |r| && r[i] == s[i] && r[..i] == s[..i]
  {
  }

  /** A call that neither touches nor drops the resident key k. */
  lemma OtherDescribed<K, V>(s: seq<(K, V)>, capacity: nat, op: Op<K, V>, k: K)
    requires capacity > 0 && Bounded(s, capacity) && Has(s, k) && TouchedIn(s, op) != Some(k) && !Drops(op, k)
    ensures Describes(NextWindow(In(KeySet(s[..Index(s, k)])), TouchedIn(s, op), capacity, op, k),
                      Apply(s, capacity, op), k)
  {
    if TouchedIn(s, op).Some? {
      OtherTouch(s, capacity, op, k);
    } else if op.Remove? {
      OtherRemove(s, capacity, op, k);
    } else if op.Overwrite? {
      OverwriteKeepsOrder(s, capacity, op, k);
    } else {
      Missed(s, capacity, op);
    }
  }

  lemma Missed<K, V>(s: seq<(K, V)>, capacity: nat, op: Op<K, V>)
    requires op.Lookup? && !Has(s, op.key)
    ensures Apply(s, capacity, op) == s
  {
  }

  lemma StepDescribed<K, V>(s: seq<(K, V)>, capacity: nat, op: Op<K, V>, w: Window<K>, k: K)
    requires capacity > 0 && Bounded(s, capacity) && Describes(w, s, k)
    ensures Describes(NextWindow(w, TouchedIn(s, op), capacity, op, k), Apply(s, capacity, op), k)
  {
    if TouchedIn(s, op) == Some(k) {
      TouchMovesToFront(s, capacity, op, k);
    } else if !Has(s, k) || Drops(op, k) {
      StaysOut(s, capacity, op, k);
    } else {
      OtherDescribed(s, capacity, op, k);
    }
  }

  lemma StaysOut<K, V>(s: seq<(K, V)>, capacity: nat, op: Op<K, V>, k: K)
    requires capacity > 0 && Bounded(s, capacity)
    requires TouchedIn(s, op) != Some(k) && (!Has(s, k) || Drops(op, k))
    ensures Describes(Out, Apply(s, capacity, op), k)
  {
    var r := Apply(s, capacity, op);
    forall i | 0 <= i < |r| ensures r[i].0 != k {
      OriginIs(s, capacity, op, i);
    }
    IndexNone(r, k);
  }

  lemma OverwriteKeepsOrder<K, V>(s: seq<(K, V)>, capacity: nat, op: Op<K, V>, k: K)
    requires capacity > 0 && Bounded(s, capacity) && Has(s, k) && op.Overwrite?
    ensures Describes(In(KeySet(s[..Index(s, k)])), Apply(s, capacity, op), k)
  {
    var i := Index(s, k);
    var r := Apply(s, capacity, op);
    assert forall m :: 0 <= m < |s| ==> r[m].0 == s[m].0;
    IndexIs(r, i);
    assert forall m :: 0 <= m < i ==> r[..i][m].0 == s[..i][m].0;
  }

  /** Exact residency over every run: k is in the cache if and only if the calls say so,
      and then the keys ahead of it are exactly those touched since. */
  lemma {:induction false} ResidencyExact<K, V>(ops: seq<Op<K, V>>, capacity: nat, k: K)
    requires capacity > 0
    ensures Describes(WindowOf(ops, capacity, k), Run(ops, capacity), k)
    decreases |ops|, 0
  {
    if ops != [] {
      var before, op := ops[..|ops| - 1], ops[|ops| - 1];
      ResidencyExact(before, capacity, k);
      TouchedExactly(before, capacity, op);
      RunBounded(before, capacity);
      StepDescribed(Run(before, capacity), capacity, op, WindowOf(before, capacity, k), k);
    }
  }

  /** So what a call touches can be read off the calls before it. */
  lemma {:induction false} TouchedExactly<K, V>(before: seq<Op<K, V>>, capacity: nat, op: Op<K, V>)
    requires capacity > 0
    ensures TouchedBy(before, capacity, op) == TouchedIn(Run(before, capacity), op)
    decreases |before|, 1
  {
    if op.Lookup? {
      ResidencyExact(before, capacity, op.key);
    }
  }

  ghost predicate Remembers<K, V>(s: seq<(K, V)>, ops: seq<Op<K, V>>, capacity: nat) {
    forall i :: 0 <= i < |s| ==> LastStored(ops, capacity, s[i].0) == Some(s[i].1)
  }

  /** A resident key always carries the value last stored under it. */
  lemma {:induction false} ValuesCurrent<K, V>(ops: seq<Op<K, V>>, capacity: nat)
    requires capacity > 0
    ensures Remembers(Run(ops, capacity), ops, capacity)
  {
    if ops != [] {
      var before, op := ops[..|ops| - 1], ops[|ops| - 1];
      var s := Run(before, capacity);
      ValuesCurrent(before, capacity);
      RunBounded(before, capacity);
      forall i | 0 <= i < |Apply(s, capacity, op)|
        ensures LastStored(ops, capacity, Apply(s, capacity, op)[i].0) == Some(Apply(s, capacity, op)[i].1)
      {
        ValueStep(s, before, op, capacity, i);
        assert ops == before + [op];
      }
    }
  }

  lemma ValueStep<K, V>(s: seq<(K, V)>, before: seq<Op<K, V>>, op: Op<K, V>, capacity: nat, i: nat)
    requires capacity > 0 && s == Run(before, capacity) && Bounded(s, capacity)
    requires Remembers(s, before, capacity)
    requires i < |Apply(s, capacity, op)|
    ensures var e := Apply(s, capacity, op)[i]; LastStored(before + [op], capacity, e.0) == Some(e.1)
  {
    assert (before + [op])[..|before|] == before;
    ValueOrigin(s, capacity, op, i);
    if op.Overwrite? {
      ResidencyExact(before, capacity, op.key);
    }
  }

  /** An entry of the new order is the one just stored, or an entry of the old order. */
  lemma ValueOrigin<K, V>(s: seq<(K, V)>, capacity: nat, op: Op<K, V>, i: nat)
    requires capacity > 0 && Bounded(s, capacity) && i < |Apply(s, capacity, op)|
    ensures var e := Apply(s, capacity, op)[i];
            if (op.Put? || (op.Overwrite? && Has(s, op.key))) && e.0 == op.key then e.1 == op.value
            else e in s
  {
  }

  /** The keys other than k that the calls in `rest`, made after `start`, put or hit. */
  ghost function OthersTouched<K, V>(start: seq<Op<K, V>>, rest: seq<Op<K, V>>, capacity: nat, k: K): set<K> {
    if rest == [] then {}
    else
      var before, op := rest[..|rest| - 1], rest[|rest| - 1];
      var touched := TouchedBy(start + before, capacity, op);
      OthersTouched(start, before, capacity, k) + if touched.Some? && touched.value != k then {touched.value} else {}
  }

  lemma {:induction false} WindowWithinOthers<K, V>(start: seq<Op<K, V>>, rest: seq<Op<K, V>>, capacity: nat, k: K)
    requires capacity > 0
    requires WindowOf(start, capacity, k) == In({})
    requires forall i :: 0 <= i < |rest| ==> !Drops(rest[i], k)
    requires |OthersTouched(start, rest, capacity, k)| < capacity
    ensures WindowOf(start + rest, capacity, k).In?
    ensures WindowOf(start + rest, capacity, k).ahead <= OthersTouched(start, rest, capacity, k)
  {
    if rest == [] {
      assert start + rest == start;
    } else {
      var before, op := rest[..|rest| - 1], rest[|rest| - 1];
      var others := OthersTouched(start, before, capacity, k);
      assert (start + rest)[..|start + rest| - 1] == start + before;
      Smaller(others, OthersTouched(start, rest, capacity, k));
      WindowWithinOthers(start, before, capacity, k);
      var w := WindowOf(start + before, capacity, k);
      var touched := TouchedBy(start + before, capacity, op);
      if touched.Some? && touched.value != k {
        Smaller(w.ahead + {touched.value}, OthersTouched(start, rest, capacity, k));
      }
    }
  }

  lemma Smaller<K>(a: set<K>, b: set<K>)
    requires a <= b
    ensures |a| <= |b|
  {
    assert b == a + (b - a);
  }

  /** Working-set guarantee: a key just put or hit survives, with the value last stored
      under it, for as long as it is not removed or cleared and fewer than `capacity`
      distinct other keys are put or hit. */
  lemma WorkingSet<K, V>(start: seq<Op<K, V>>, rest: seq<Op<K, V>>, capacity: nat, k: K)
    requires capacity > 0
    requires start != [] && TouchedBy(start[..|start| - 1], capacity, start[|start| - 1]) == Some(k)
    requires forall i :: 0 <= i < |rest| ==> !Drops(rest[i], k)
    requires |OthersTouched(start, rest, capacity, k)| < capacity
    ensures Has(Run(start + rest, capacity), k)
    ensures LastStored(start + rest, capacity, k) == Some(ValueOf(Run(start + rest, capacity), k))
  {
    WindowWithinOthers(start, rest, capacity, k);
    ResidencyExact(start + rest, capacity, k);
    ValuesCurrent(start + rest, capacity);
  }

  /** A lookup finds k exactly when the calls so far leave it in, and then finds the value last
      stored under it. */
  lemma LookupFinds<K, V>(ops: seq<Op<K, V>>, capacity: nat, k: K)
    requires capacity > 0
    ensures Has(Run(ops, capacity), k) <==> WindowOf(ops, capacity, k).In?
    ensures Has(Run(ops, capacity), k) ==> Some(ValueOf(Run(ops, capacity), k)) == LastStored(ops, capacity, k)
  {
    ResidencyExact(ops, capacity, k);
    ValuesCurrent(ops, capacity);
  }

  /** A Put that evicts nothing keeps every resident key. */
  lemma PutKeeps<K, V>(s: seq<(K, V)>, capacity: nat, op: Op<K, V>, k: K)
    requires capacity > 0 && Bounded(s, capacity) && op.Put? && Evicted(s, capacity, op).None? && Has(s, k)
    ensures Has(Apply(s, capacity, op), k)
  {
    var r, i, p := Apply(s, capacity, op), Index(s, k), Index(s, op.key);
    if k == op.key {
      HasAt(r, 0);
    } else if p < |s| {
      var j := if i < p then i else i - 1;
      ErasedAt(s, p, j);
      assert r[j + 1] == EraseAt(s, p)[j];
      HasAt(r, j + 1);
    } else {
      assert r[i + 1] == s[i];
      HasAt(r, i + 1);
    }
  }

  /** What Put reports as evicted, over every run and every call: (k, v) exactly when the call is
      a Put, the calls leave k in before it and out after it, and v was last stored under k. */
  lemma EvictedExactly<K, V>(ops: seq<Op<K, V>>, capacity: nat, op: Op<K, V>, k: K, v: V)
    requires capacity > 0
    ensures Evicted(Run(ops, capacity), capacity, op) == Some((k, v)) <==>
            && op.Put? && WindowOf(ops, capacity, k).In? && WindowOf(ops + [op], capacity, k).Out?
            && LastStored(ops, capacity, k) == Some(v)
  {
    var s := Run(ops, capacity);
    RunBounded(ops, capacity);
    RunSnoc(ops, capacity, op);
    LookupFinds(ops, capacity, k);
    ResidencyExact(ops + [op], capacity, k);
    if op.Put? && Has(s, k) {
      if Evicted(s, capacity, op).None? {
        PutKeeps(s, capacity, op, k);
      } else {
        PutEvictsLast(s, capacity, op, k);
        IndexIs(s, |s| - 1);
      }
    }
    if Evicted(s, capacity, op) == Some((k, v)) {
      HasAt(s, |s| - 1);
    }
  }

  /** How Put reuses Find: a hit is a lookup followed by a store through the pointer. */
  lemma PutHit<K, V>(s: seq<(K, V)>, capacity: nat, k: K, v: V)
    requires Has(s, k)
    ensures Apply(Apply(s, capacity, Lookup(k)), capacity, Overwrite(k, v)) == Apply(s, capacity, Put(k, v))
    ensures Evicted(s, capacity, Put(k, v)) == None
  {
    var i := Index(s, k);
    var r := Apply(s, capacity, Lookup(k));
    assert r[0].0 == k && Index(r, k) == 0;
  }
}
