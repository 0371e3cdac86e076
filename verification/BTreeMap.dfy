/** `BTreeMap<String, V>` as its sequence of entries in key order, and `collect` into it. */
module BTreeMap {
  import opened Wrappers

  type Key = seq<byte>

  datatype Pair<+V> = Pair(key: Key, value: V)

  /** `Ord for str`: byte by byte. */
  predicate Less(a: Key, b: Key) {
    if b == [] then false
    else if a == [] then true
    else if a[0] != b[0] then a[0] < b[0]
    else Less(a[1..], b[1..])
  }

  predicate Sorted<V>(m: seq<Pair<V>>) {
    forall i, j | 0 <= i < j < |m| :: Less(m[i].key, m[j].key)
  }

  /** `insert`: replaces the value of a key that is there. */
  function Insert<V>(m: seq<Pair<V>>, key: Key, value: V): seq<Pair<V>> {
    if m == [] || Less(key, m[0].key) then [Pair(key, value)] + m
    else if m[0].key == key then [Pair(key, value)] + m[1..]
    else [m[0]] + Insert(m[1..], key, value)
  }

  /** `from_iter`: the entries are inserted in order. */
  function Collect<V>(es: seq<Pair<V>>): seq<Pair<V>> {
    if es == [] then [] else Insert(Collect(es[..|es| - 1]), es[|es| - 1].key, es[|es| - 1].value)
  }

  function Lookup<V>(m: seq<Pair<V>>, key: Key): Option<V> {
    if m == [] then None
    else if m[0].key == key then Some(m[0].value)
    else Lookup(m[1..], key)
  }

  /** The value of the last entry for `key`. */
  function LastFor<V>(es: seq<Pair<V>>, key: Key): Option<V> {
    if es == [] then None
    else if es[|es| - 1].key == key then Some(es[|es| - 1].value)
    else LastFor(es[..|es| - 1], key)
  }

  // ----- the order -----

  lemma {:induction false} Irreflexive(a: Key)
    ensures !Less(a, a)
  {
    if a == [] {
    } else {
      Irreflexive(a[1..]);
    }
  }

  lemma {:induction false} Transitive(a: Key, b: Key, c: Key)
    requires Less(a, b) && Less(b, c)
    ensures Less(a, c)
  {
    if a != [] && a[0] == b[0] == c[0] { Transitive(a[1..], b[1..], c[1..]); }
  }

  lemma {:induction false} Total(a: Key, b: Key)
    ensures Less(a, b) || a == b || Less(b, a)
  {
    if a != [] && b != [] && a[0] == b[0] {
      Total(a[1..], b[1..]);
      assert a == [a[0]] + a[1..] && b == [b[0]] + b[1..];
    }
  }

  /** The order is that of dictionaries, by the numbers of the bytes: a proper prefix, or a smaller byte where they part. */
  lemma {:induction false} LessIsLexicographic(a: Key, b: Key)
    ensures Less(a, b) <==> (|a| < |b| && a == b[..|a|]) || exists k :: PartsAt(a, b, k) && a[k] < b[k]
  {
    if a != [] && b != [] && a[0] == b[0] {
      var a', b' := a[1..], b[1..];
      LessIsLexicographic(a', b');
      assert |a| < |b| && a == b[..|a|] <==> |a'| < |b'| && a' == b'[..|a'|] by {
        assert a == [a[0]] + a' && b == [b[0]] + b';
        assert |a| < |b| ==> b[..|a|] == [b[0]] + b'[..|a'|];
      }
      forall k | PartsAt(a', b', k) && a'[k] < b'[k]
        ensures PartsAt(a, b, k + 1) && a[k + 1] < b[k + 1]
      {
        assert a[..k + 1] == [a[0]] + a'[..k] && b[..k + 1] == [b[0]] + b'[..k];
      }
      forall k | PartsAt(a, b, k) && a[k] < b[k]
        ensures PartsAt(a', b', k - 1) && a'[k - 1] < b'[k - 1]
      {
        assert a'[..k - 1] == a[..k][1..] && b'[..k - 1] == b[..k][1..];
      }
    } else if a != [] && b != [] {
      assert PartsAt(a, b, 0);
      assert forall k | 0 < k < |a| && k < |b| :: a[..k][0] == a[0] && b[..k][0] == b[0];
    }
  }

  /** The keys agree up to `k`, where both go on. */
  ghost predicate PartsAt(a: Key, b: Key, k: int) {
    0 <= k < |a| && k < |b| && a[..k] == b[..k] && a[k] != b[k]
  }

  // ----- the map -----

  ghost function Keys<V>(es: seq<Pair<V>>): set<Key> {
    set e | e in es :: e.key
  }

  lemma {:induction false} InsertKeys<V>(m: seq<Pair<V>>, key: Key, value: V)
    ensures forall i | 0 <= i < |Insert(m, key, value)| ::
              Insert(m, key, value)[i].key == key || exists j | 0 <= j < |m| :: m[j].key == Insert(m, key, value)[i].key
  {
    if m == [] || Less(key, m[0].key) || m[0].key == key {
    } else {
      InsertKeys(m[1..], key, value);
      var r, r' := Insert(m, key, value), Insert(m[1..], key, value);
      forall i | 0 <= i < |r|
        ensures r[i].key == key || exists j | 0 <= j < |m| :: m[j].key == r[i].key
      {
        if i > 0 && r'[i - 1].key != key {
          var j :| 0 <= j < |m[1..]| && m[1..][j].key == r'[i - 1].key;
          assert m[j + 1].key == r[i].key;
        } else if i == 0 {
          assert m[0].key == r[0].key;
        }
      }
    }
  }

  lemma {:induction false} InsertSorted<V>(m: seq<Pair<V>>, key: Key, value: V)
    requires Sorted(m)
    ensures Sorted(Insert(m, key, value))
  {
    if m == [] {
    } else if Less(key, m[0].key) {
      forall j | 0 < j < |m|
        ensures Less(key, m[j].key)
      {
        Transitive(key, m[0].key, m[j].key);
      }
    } else if m[0].key != key {
      InsertSorted(m[1..], key, value);
      InsertKeys(m[1..], key, value);
      Total(key, m[0].key);
    }
  }

  lemma {:induction false} AbsentBelow<V>(m: seq<Pair<V>>, key: Key)
    requires Sorted(m) && (m != [] ==> Less(key, m[0].key))
    ensures Lookup(m, key) == None
  {
    if m == [] {
    } else {
      Irreflexive(key);
      if |m| > 1 { Transitive(key, m[0].key, m[1].key); }
      AbsentBelow(m[1..], key);
    }
  }

  lemma {:induction false} InsertLookup<V>(m: seq<Pair<V>>, key: Key, value: V, k: Key)
    requires Sorted(m)
    ensures Lookup(Insert(m, key, value), k) == if k == key then Some(value) else Lookup(m, k)
  {
    if m != [] && !Less(key, m[0].key) && m[0].key != key {
      InsertLookup(m[1..], key, value, k);
    }
  }

  /** Collecting gives a sorted map in which every key has its last value. */
  lemma {:induction false} LastWriterWins<V>(es: seq<Pair<V>>, k: Key)
    ensures Sorted(Collect(es)) && Lookup(Collect(es), k) == LastFor(es, k)
  {
    if es == [] {
    } else {
      var init, last := es[..|es| - 1], es[|es| - 1];
      LastWriterWins(init, k);
      InsertSorted(Collect(init), last.key, last.value);
      InsertLookup(Collect(init), last.key, last.value, k);
    }
  }

  /** The entries of the map are exactly the last ones of their keys. */
  lemma {:induction false} CollectsLastEntries<V>(es: seq<Pair<V>>, e: Pair<V>)
    ensures e in Collect(es) <==> exists i :: IsLast(es, i, e)
  {
    LastWriterWins(es, e.key);
    LastIsFound(es, e);
    if e in Collect(es) {
      var j :| 0 <= j < |Collect(es)| && Collect(es)[j] == e;
      LookupAt(Collect(es), j);
    } else if Lookup(Collect(es), e.key).Some? {
      var i := LookupFinds(Collect(es), e.key);
    }
  }

  /** `e` is at `i`, and its key is nowhere behind. */
  ghost predicate IsLast<V>(es: seq<Pair<V>>, i: int, e: Pair<V>) {
    0 <= i < |es| && es[i] == e && forall j | i < j < |es| :: es[j].key != e.key
  }

  lemma {:induction false} LastIsFound<V>(es: seq<Pair<V>>, e: Pair<V>)
    ensures LastFor(es, e.key) == Some(e.value) <==> exists i :: IsLast(es, i, e)
  {
    if es == [] {
    } else if es[|es| - 1].key == e.key {
      if es[|es| - 1] == e {
        assert IsLast(es, |es| - 1, e);
      }
    } else {
      var init := es[..|es| - 1];
      LastIsFound(init, e);
      forall i | IsLast(init, i, e)
        ensures IsLast(es, i, e)
      {
      }
      forall i | IsLast(es, i, e)
        ensures IsLast(init, i, e)
      {
        assert forall j | i < j < |init| :: init[j] == es[j];
      }
    }
  }

  lemma {:induction false} InsertAtEnd<V>(m: seq<Pair<V>>, e: Pair<V>)
    requires Sorted(m + [e])
    ensures Insert(m, e.key, e.value) == m + [e]
  {
    if m == [] {
    } else {
      assert (m + [e])[0].key == m[0].key && (m + [e])[|m|] == e;
      Irreflexive(e.key);
      if Less(e.key, m[0].key) { Transitive(e.key, m[0].key, e.key); }
      assert (m + [e])[1..] == m[1..] + [e];
      InsertAtEnd(m[1..], e);
    }
  }

  /** Collecting the entries of a map, in order, gives the map back. */
  lemma {:induction false} CollectSorted<V>(m: seq<Pair<V>>)
    requires Sorted(m)
    ensures Collect(m) == m
  {
    if m == [] {
    } else {
      CollectSorted(m[..|m| - 1]);
      assert m == m[..|m| - 1] + [m[|m| - 1]];
      InsertAtEnd(m[..|m| - 1], m[|m| - 1]);
    }
  }

  lemma {:induction false} LookupAt<V>(m: seq<Pair<V>>, i: nat)
    requires Sorted(m) && i < |m|
    ensures Lookup(m, m[i].key) == Some(m[i].value)
  {
    if i > 0 {
      Irreflexive(m[0].key);
      assert Less(m[0].key, m[i].key);
      LookupAt(m[1..], i - 1);
    }
  }

  lemma {:induction false} LookupFinds<V>(m: seq<Pair<V>>, k: Key) returns (i: nat)
    requires Lookup(m, k).Some?
    ensures i < |m| && m[i] == Pair(k, Lookup(m, k).value)
  {
    if m[0].key == k {
      i := 0;
    } else {
      i := LookupFinds(m[1..], k);
      i := i + 1;
    }
  }

  /** Maps are equal when they agree on every key. */
  lemma {:induction false} Extensional<V>(m: seq<Pair<V>>, m': seq<Pair<V>>)
    requires Sorted(m) && Sorted(m') && forall k :: Lookup(m, k) == Lookup(m', k)
    ensures m == m'
  {
    HeadFound(m);
    HeadFound(m');
    if m != [] && m' != [] {
      SameHead(m, m');
      SameHead(m', m);
      Total(m[0].key, m'[0].key);
      assert Lookup(m, m[0].key) == Lookup(m', m[0].key);
      forall k
        ensures Lookup(m[1..], k) == Lookup(m'[1..], k)
      {
        if k == m[0].key {
          if |m| > 1 { AbsentBelow(m[1..], k); }
          if |m'| > 1 { AbsentBelow(m'[1..], k); }
        } else {
          assert Lookup(m, k) == Lookup(m', k);
        }
      }
      Extensional(m[1..], m'[1..]);
      assert m == [m[0]] + m[1..] && m' == [m'[0]] + m'[1..];
    }
  }

  lemma HeadFound<V>(m: seq<Pair<V>>)
    ensures m != [] ==> Lookup(m, m[0].key).Some?
  {
  }

  lemma {:induction false} SameHead<V>(m: seq<Pair<V>>, m': seq<Pair<V>>)
    requires Sorted(m) && Sorted(m') && m != [] && m' != []
    requires forall k :: Lookup(m, k) == Lookup(m', k)
    ensures !Less(m[0].key, m'[0].key)
  {
    HeadFound(m);
    if Less(m[0].key, m'[0].key) {
      AbsentBelow(m', m[0].key);
    }
  }
}
