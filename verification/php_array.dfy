/** PHP arrays with integer keys, as the report views use them for field-name
    lists: an ordered list of `(key, value)` entries. The array `+` operator
    is a union by KEY (entries of the right operand whose key the left operand
    already has are dropped), not a concatenation, and `array_unique` keeps
    the first entry of each value together with its original key. */
module PhpArray {

  type PArray<V> = seq<(int, V)>

  /** The keys of `a`. */
  function KeySet<V>(a: PArray<V>): set<int> {
    set i | 0 <= i < |a| :: a[i].0
  }

  /** The values of `a`, in order (what `foreach` visits). */
  function Values<V>(a: PArray<V>): (r: seq<V>)
    ensures |r| == |a|
    ensures forall i :: 0 <= i < |a| ==> r[i] == a[i].1
  {
    seq(|a|, i requires 0 <= i < |a| => a[i].1)
  }

  /** A PHP list: the keys are 0, 1, 2, ... in order. */
  predicate IsList<V>(a: PArray<V>) {
    forall i :: 0 <= i < |a| ==> a[i].0 == i
  }

  /** The list holding `s`. */
  function FromList<V>(s: seq<V>): (r: PArray<V>)
    ensures IsList(r) && Values(r) == s
  {
    seq(|s|, i requires 0 <= i < |s| => (i, s[i]))
  }

  /** The entries of `b` whose key is not in `ks`, in `b`'s order. */
  function Missing<V>(b: PArray<V>, ks: set<int>): (r: PArray<V>)
    ensures forall k :: 0 <= k < |r| ==> r[k] in b && r[k].0 !in ks
    ensures forall k :: 0 <= k < |b| && b[k].0 !in ks ==> b[k] in r
  {
    if |b| == 0 then []
    else (if b[0].0 in ks then [] else [b[0]]) + Missing(b[1..], ks)
  }

  /** PHP's `a + b`: all of `a`, then every entry of `b` whose key `a` lacks. */
  function Plus<V>(a: PArray<V>, b: PArray<V>): PArray<V> {
    a + Missing(b, KeySet(a))
  }

  /** `s` without its first `n` elements (empty when `n` exceeds its length). */
  function Drop<V>(s: seq<V>, n: nat): seq<V> {
    if n >= |s| then [] else s[n..]
  }

  lemma {:induction false} MissingOfRange<V>(b: PArray<V>, off: int, ks: set<int>, n: int)
    requires forall i :: 0 <= i < |b| ==> b[i].0 == off + i
    requires forall k :: k in ks <==> 0 <= k < n
    requires 0 <= off
    ensures Missing(b, ks) == (if n <= off then b else Drop(b, n - off))
  {
    if |b| > 0 {
      MissingOfRange(b[1..], off + 1, ks, n);
      if n <= off {
        assert b[0].0 !in ks;
        assert [b[0]] + b[1..] == b;
      } else {
        assert b[0].0 in ks;
        if n - off >= |b| {
        } else {
          assert b[1..][n - (off + 1)..] == b[n - off..];
        }
      }
    }
  }

  lemma KeySetOfList<V>(a: PArray<V>)
    requires IsList(a)
    ensures forall k :: k in KeySet(a) <==> 0 <= k < |a|
  {
    forall k | 0 <= k < |a| ensures k in KeySet(a) {
      assert a[k].0 == k;
    }
  }

  /** On two lists, `a + b` keeps all of `a` and then only the elements of `b`
      at positions `|a|` and beyond. */
  lemma PlusOnLists<V>(a: seq<V>, b: seq<V>)
    ensures Values(Plus(FromList(a), FromList(b))) == a + Drop(b, |a|)
  {
    var fa, fb := FromList(a), FromList(b);
    KeySetOfList(fa);
    assert forall i :: 0 <= i < |fb| ==> fb[i].0 == 0 + i;
    MissingOfRange(fb, 0, KeySet(fa), |a|);
    assert Plus(fa, fb) == fa + Drop(fb, |a|);
    ValuesDrop(fb, |a|);
    ValuesConcat(fa, Drop(fb, |a|));
    assert Values(fa) == a && Values(fb) == b;
  }

  /** The values `Missing` keeps of a list are those at positions outside `ks`. */
  lemma ValuesMissingOfList<V>(s: seq<V>, ks: set<int>)
    ensures forall x :: x in Values(Missing(FromList(s), ks)) <==>
      exists i :: 0 <= i < |s| && i !in ks && s[i] == x
  {
    var b := FromList(s);
    var m := Missing(b, ks);
    forall x | x in Values(m) ensures exists i :: 0 <= i < |s| && i !in ks && s[i] == x {
      var k :| 0 <= k < |m| && Values(m)[k] == x;
      var i :| 0 <= i < |b| && b[i] == m[k];
      assert s[i] == x;
    }
    forall x | exists i :: 0 <= i < |s| && i !in ks && s[i] == x ensures x in Values(m) {
      var i :| 0 <= i < |s| && i !in ks && s[i] == x;
      assert b[i].0 !in ks;
      var k :| 0 <= k < |m| && m[k] == b[i];
      assert Values(m)[k] == x;
    }
  }

  lemma ValuesConcat<V>(x: PArray<V>, y: PArray<V>)
    ensures Values(x + y) == Values(x) + Values(y)
  {
  }

  lemma ValuesDrop<V>(x: PArray<V>, n: nat)
    ensures Values(Drop(x, n)) == Drop(Values(x), n)
  {
  }

  /** `array_unique`, scanning with `seen` already taken. */
  function UniqueFrom<V(==)>(a: PArray<V>, seen: set<V>): (r: PArray<V>)
    ensures forall k :: 0 <= k < |r| ==> r[k] in a && r[k].1 !in seen
  {
    if |a| == 0 then []
    else if a[0].1 in seen then UniqueFrom(a[1..], seen)
    else [a[0]] + UniqueFrom(a[1..], seen + {a[0].1})
  }

  /** The scan keeps every value it has not already taken. */
  lemma {:induction false} UniqueFromCovers<V>(a: PArray<V>, seen: set<V>)
    ensures forall k :: 0 <= k < |a| && a[k].1 !in seen ==> a[k].1 in Values(UniqueFrom(a, seen))
  {
    if |a| > 0 {
      var r := UniqueFrom(a, seen);
      if a[0].1 in seen {
        UniqueFromCovers(a[1..], seen);
        forall k | 0 <= k < |a| && a[k].1 !in seen ensures a[k].1 in Values(r) {
          assert a[k] == a[1..][k - 1];
        }
      } else {
        var rest := UniqueFrom(a[1..], seen + {a[0].1});
        UniqueFromCovers(a[1..], seen + {a[0].1});
        assert Values(r) == [a[0].1] + Values(rest);
        forall k | 0 <= k < |a| && a[k].1 !in seen ensures a[k].1 in Values(r) {
          if k > 0 && a[k].1 != a[0].1 {
            assert a[k] == a[1..][k - 1];
          }
        }
      }
    }
  }

  /** PHP's `array_unique`: the first entry of each value, keys kept. */
  function Unique<V(==)>(a: PArray<V>): PArray<V> {
    UniqueFrom(a, {})
  }

  predicate DistinctValues<V(==)>(a: PArray<V>) {
    forall i, j :: 0 <= i < j < |a| ==> a[i].1 != a[j].1
  }

  lemma {:induction false} UniqueFromDistinct<V>(a: PArray<V>, seen: set<V>)
    ensures DistinctValues(UniqueFrom(a, seen))
  {
    if |a| > 0 {
      UniqueFromDistinct(a[1..], seen);
      UniqueFromDistinct(a[1..], seen + {a[0].1});
    }
  }

  /** The position of the first entry of `a` holding `v`. */
  function FirstIndex<V(==)>(a: PArray<V>, v: V): (i: nat)
    requires v in Values(a)
    ensures i < |a| && a[i].1 == v
    ensures forall j :: 0 <= j < i ==> a[j].1 != v
  {
    if a[0].1 == v then 0
    else
      assert v in Values(a[1..]) by {
        var j :| 0 <= j < |a| && Values(a)[j] == v;
        assert Values(a[1..])[j - 1] == v;
      }
      1 + FirstIndex(a[1..], v)
  }

  lemma FirstIndexTail<V>(a: PArray<V>, v: V)
    requires |a| > 0 && v in Values(a[1..]) && a[0].1 != v
    ensures v in Values(a) && FirstIndex(a, v) == 1 + FirstIndex(a[1..], v)
  {
    var j :| 0 <= j < |a[1..]| && Values(a[1..])[j] == v;
    assert Values(a)[j + 1] == v;
  }

  lemma EntryValue<V>(a: PArray<V>, e: (int, V))
    requires e in a
    ensures e.1 in Values(a)
  {
    var j :| 0 <= j < |a| && a[j] == e;
    assert Values(a)[j] == e.1;
  }

  /** Every entry of `r` is the first entry of `a` holding its value. */
  predicate KeepsFirstEntries<V(==)>(a: PArray<V>, r: PArray<V>) {
    forall k :: 0 <= k < |r| ==> r[k].1 in Values(a) && r[k] == a[FirstIndex(a, r[k].1)]
  }

  /** The entries of `r` come in the order their values first occur in `a`. */
  predicate InFirstOrder<V(==)>(a: PArray<V>, r: PArray<V>) {
    forall k1, k2 :: 0 <= k1 < k2 < |r| ==>
      r[k1].1 in Values(a) && r[k2].1 in Values(a) && FirstIndex(a, r[k1].1) < FirstIndex(a, r[k2].1)
  }

  /** What the scan keeps of the tail sits one place further on in `a`. */
  lemma UniqueFromShift<V>(a: PArray<V>, seen: set<V>)
    requires |a| > 0 && a[0].1 in seen
    ensures var rest := UniqueFrom(a[1..], seen);
      forall k :: 0 <= k < |rest| ==>
        && rest[k].1 in Values(a[1..]) && rest[k].1 in Values(a)
        && FirstIndex(a, rest[k].1) == 1 + FirstIndex(a[1..], rest[k].1)
  {
    var rest := UniqueFrom(a[1..], seen);
    forall k | 0 <= k < |rest|
      ensures rest[k].1 in Values(a[1..]) && rest[k].1 in Values(a)
      ensures FirstIndex(a, rest[k].1) == 1 + FirstIndex(a[1..], rest[k].1)
    {
      EntryValue(a[1..], rest[k]);
      FirstIndexTail(a, rest[k].1);
    }
  }

  /** `array_unique` keeps, for each value, the FIRST entry holding it,
      together with that entry's key. */
  lemma {:induction false} UniqueFromFirst<V>(a: PArray<V>, seen: set<V>)
    ensures KeepsFirstEntries(a, UniqueFrom(a, seen))
  {
    if |a| > 0 {
      var r := UniqueFrom(a, seen);
      var seen' := seen + {a[0].1};
      var rest := UniqueFrom(a[1..], seen');
      UniqueFromFirst(a[1..], seen');
      UniqueFromShift(a, seen');
      if a[0].1 in seen {
        assert seen' == seen;
        assert r == rest;
      } else {
        assert r == [a[0]] + rest;
        EntryValue(a, a[0]);
        assert FirstIndex(a, a[0].1) == 0;
        forall k | 0 <= k < |r| ensures r[k].1 in Values(a) && r[k] == a[FirstIndex(a, r[k].1)] {
          if k > 0 {
            assert r[k] == rest[k - 1];
          }
        }
      }
    }
  }

  /** Order by first occurrence in the tail carries over to `a` itself. */
  lemma OrderUp<V>(a: PArray<V>, r: PArray<V>)
    requires |a| > 0 && InFirstOrder(a[1..], r)
    requires forall k :: 0 <= k < |r| ==>
      && r[k].1 in Values(a[1..]) && r[k].1 in Values(a)
      && FirstIndex(a, r[k].1) == 1 + FirstIndex(a[1..], r[k].1)
    ensures InFirstOrder(a, r)
  {
  }

  /** Putting `a`'s first entry in front of `r` keeps the order; `r2` is
      that sequence, given by its elements. */
  lemma OrderCons<V>(a: PArray<V>, r: PArray<V>, r2: PArray<V>)
    requires |a| > 0 && InFirstOrder(a, r)
    requires forall k :: 0 <= k < |r| ==> r[k].1 in Values(a) && FirstIndex(a, r[k].1) > 0
    requires |r2| == |r| + 1 && r2[0] == a[0]
    requires forall k :: 1 <= k < |r2| ==> r2[k] == r[k - 1]
    ensures InFirstOrder(a, r2)
  {
    EntryValue(a, a[0]);
    assert FirstIndex(a, a[0].1) == 0;
    forall k1, k2 | 0 <= k1 < k2 < |r2|
      ensures r2[k1].1 in Values(a) && r2[k2].1 in Values(a) && FirstIndex(a, r2[k1].1) < FirstIndex(a, r2[k2].1)
    {
      assert r2[k2] == r[k2 - 1];
      if k1 > 0 {
        assert r2[k1] == r[k1 - 1];
      }
    }
  }

  /** A value not yet taken is kept in front of what the scan keeps of the tail. */
  lemma UniqueFromCons<V>(a: PArray<V>, seen: set<V>)
    requires |a| > 0 && a[0].1 !in seen
    ensures var r := UniqueFrom(a, seen);
      var rest := UniqueFrom(a[1..], seen + {a[0].1});
      && |r| == |rest| + 1 && r[0] == a[0]
      && forall k :: 1 <= k < |r| ==> r[k] == rest[k - 1]
  {
    var rest := UniqueFrom(a[1..], seen + {a[0].1});
    var r := [a[0]] + rest;
    assert UniqueFrom(a, seen) == r;
    assert forall k :: 1 <= k < |r| ==> r[k] == rest[k - 1];
  }

  /** `array_unique` keeps the entries it keeps in their original order. */
  lemma {:induction false} UniqueFromOrder<V>(a: PArray<V>, seen: set<V>)
    ensures InFirstOrder(a, UniqueFrom(a, seen))
  {
    if |a| > 0 {
      var seen' := seen + {a[0].1};
      var rest := UniqueFrom(a[1..], seen');
      if a[0].1 !in seen {
        UniqueFromCons(a, seen);
      }
      UniqueFromOrder(a[1..], seen');
      UniqueFromShift(a, seen');
      OrderUp(a, rest);
      if a[0].1 in seen {
        assert seen' == seen;
      } else {
        OrderCons(a, rest, UniqueFrom(a, seen));
      }
    }
  }

  /** `array_unique` leaves each value once, keeps every value, and adds
      none; what it keeps of each value is that value's first entry, key
      included, and the kept entries stay in their original order. */
  lemma UniqueSpec<V>(a: PArray<V>)
    ensures DistinctValues(Unique(a))
    ensures forall v :: v in Values(Unique(a)) <==> v in Values(a)
    ensures forall k :: 0 <= k < |Unique(a)| ==> Unique(a)[k] in a
    ensures KeepsFirstEntries(a, Unique(a)) && InFirstOrder(a, Unique(a))
  {
    UniqueFromDistinct(a, {});
    UniqueFromCovers(a, {});
    UniqueFromFirst(a, {});
    UniqueFromOrder(a, {});
    var r := Unique(a);
    forall v | v in Values(r) ensures v in Values(a) {
      var k :| 0 <= k < |r| && Values(r)[k] == v;
      assert r[k] in a;
      var j :| 0 <= j < |a| && a[j] == r[k];
      assert Values(a)[j] == v;
    }
    forall v | v in Values(a) ensures v in Values(r) {
      var j :| 0 <= j < |a| && Values(a)[j] == v;
    }
  }

  /** An array whose values are already distinct is left as it is. */
  lemma {:induction false} UniqueFromOfDistinct<V>(a: PArray<V>, seen: set<V>)
    requires DistinctValues(a)
    requires forall k :: 0 <= k < |a| ==> a[k].1 !in seen
    ensures UniqueFrom(a, seen) == a
  {
    if |a| > 0 {
      assert forall k :: 0 <= k < |a[1..]| ==> a[1..][k].1 !in seen + {a[0].1} by {
        forall k | 0 <= k < |a[1..]| ensures a[1..][k].1 !in seen + {a[0].1} {
          assert a[1..][k] == a[k + 1];
        }
      }
      UniqueFromOfDistinct(a[1..], seen + {a[0].1});
      assert [a[0]] + a[1..] == a;
    }
  }

  /** `array_unique` is idempotent. */
  lemma UniqueIdempotent<V>(a: PArray<V>)
    ensures Unique(Unique(a)) == Unique(a)
  {
    UniqueSpec(a);
    UniqueFromOfDistinct(Unique(a), {});
  }
}
