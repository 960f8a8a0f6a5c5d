/**
 * The identity diff shared by printer and job reconciliation: index a remote
 * snapshot by its stable key, then split the union of local and remote keys
 * into removed / added / updated.
 */
module Diff {
  import opened Base

  /** The keys a collection furnishes, in collection order. */
  function KeysOf<V>(xs: seq<V>, key: V -> Uuid): (ks: seq<Uuid>)
    ensures |ks| == |xs|
    ensures forall i :: 0 <= i < |xs| ==> ks[i] == key(xs[i])
  {
    seq(|xs|, i requires 0 <= i < |xs| => key(xs[i]))
  }

  /** The set of keys a collection furnishes. */
  function KeySetOf<V>(xs: seq<V>, key: V -> Uuid): set<Uuid>
  {
    set i | 0 <= i < |xs| :: key(xs[i])
  }

  /** `v` is the LAST element of `xs` whose key is `k`. */
  ghost predicate IsLastWith<V>(xs: seq<V>, key: V -> Uuid, k: Uuid, v: V)
  {
    exists i :: 0 <= i < |xs| && xs[i] == v && key(xs[i]) == k &&
      forall j :: i < j < |xs| ==> key(xs[j]) != k
  }

  /** Every entry of `m` is the last element of `xs` with that key. */
  ghost predicate LastWins<V>(xs: seq<V>, key: V -> Uuid, m: map<Uuid, V>)
  {
    forall k :: k in m ==> IsLastWith(xs, key, k, m[k])
  }

  /**
   * A Python dict comprehension `{key(x): x for x in xs}`: every key of the
   * collection is present, and a repeated key keeps its last element.
   */
  function KeyIndex<V>(xs: seq<V>, key: V -> Uuid): (m: map<Uuid, V>)
    ensures m.Keys == KeySetOf(xs, key)
    ensures forall k :: k in m ==> IsLastWith(xs, key, k, m[k])
  {
    if |xs| == 0 then map[]
    else
      var init := xs[..|xs| - 1];
      var m0 := KeyIndex(init, key);
      var x := xs[|xs| - 1];
      assert forall k :: k in m0 && k != key(x) ==> IsLastWith(xs, key, k, m0[k]) by {
        forall k | k in m0 && k != key(x) ensures IsLastWith(xs, key, k, m0[k]) {
          LastWithExtends(xs, key, k, m0[k]);
        }
      }
      assert IsLastWith(xs, key, key(x), x) by {
        assert xs[|xs| - 1] == x;
      }
      KeySetSnoc(xs, key);
      m0[key(x) := x]
  }

  /** The last element with key `k` stays the last one when an element with another key is appended. */
  lemma LastWithExtends<V>(xs: seq<V>, key: V -> Uuid, k: Uuid, v: V)
    requires |xs| > 0 && IsLastWith(xs[..|xs| - 1], key, k, v) && key(xs[|xs| - 1]) != k
    ensures IsLastWith(xs, key, k, v)
  {
    var init := xs[..|xs| - 1];
    var i :| 0 <= i < |init| && init[i] == v && key(init[i]) == k &&
      forall j :: i < j < |init| ==> key(init[j]) != k;
    assert xs[i] == init[i];
    forall j | i < j < |xs| ensures key(xs[j]) != k {
      if j < |init| { assert xs[j] == init[j]; }
    }
  }

  /** Appending an element adds its key to the key set. */
  lemma KeySetSnoc<V>(xs: seq<V>, key: V -> Uuid)
    requires |xs| > 0
    ensures KeySetOf(xs, key) == KeySetOf(xs[..|xs| - 1], key) + {key(xs[|xs| - 1])}
  {
    var init := xs[..|xs| - 1];
    forall k | k in KeySetOf(xs, key) ensures k in KeySetOf(init, key) + {key(xs[|xs| - 1])} {
      var i :| 0 <= i < |xs| && key(xs[i]) == k;
      if i < |init| { assert init[i] == xs[i]; }
    }
    forall k | k in KeySetOf(init, key) ensures k in KeySetOf(xs, key) {
      var i :| 0 <= i < |init| && key(init[i]) == k;
      assert xs[i] == init[i];
    }
  }

  /** Every indexed element comes from the collection and carries its own key. */
  lemma KeyIndexSound<V>(xs: seq<V>, key: V -> Uuid, k: Uuid)
    requires k in KeyIndex(xs, key)
    ensures KeyIndex(xs, key)[k] in xs
    ensures key(KeyIndex(xs, key)[k]) == k
  {
  }

  /** The three disjoint key sets of one reconciliation. */
  datatype Delta = Delta(removed: set<Uuid>, added: set<Uuid>, updated: set<Uuid>)

  /**
   * Splits local and remote keys: every local key is removed or updated, every
   * remote key is added or updated, and no key is in two of the three sets.
   */
  function Reconcile(local: set<Uuid>, remote: set<Uuid>): (d: Delta)
    ensures d.removed + d.updated == local
    ensures d.added + d.updated == remote
    ensures d.removed !! d.updated && d.added !! d.updated && d.removed !! d.added
  {
    Delta(local - remote, remote - local, local * remote)
  }

  /** The three sets cover exactly the keys seen on either side. */
  lemma ReconcileCovers(local: set<Uuid>, remote: set<Uuid>)
    ensures var d := Reconcile(local, remote);
      d.removed + d.added + d.updated == local + remote
  {
  }

  /**
   * The keys of `ks` that lie in `wanted`, each once, in order of first
   * appearance (`EnumerateInOrder`): the order in which newly seen keys are
   * processed.
   */
  function Enumerate(ks: seq<Uuid>, wanted: set<Uuid>): (r: seq<Uuid>)
    ensures forall k :: k in r <==> k in ks && k in wanted
    ensures forall i, j :: 0 <= i < j < |r| ==> r[i] != r[j]
  {
    if |ks| == 0 then []
    else
      var r0 := Enumerate(ks[..|ks| - 1], wanted);
      var k := ks[|ks| - 1];
      assert forall x :: x in ks <==> x in ks[..|ks| - 1] || x == k by {
        assert ks == ks[..|ks| - 1] + [k];
      }
      if k in wanted && k !in r0 then r0 + [k] else r0
  }

  /** The position of the first occurrence of `k` in `ks`. */
  function FirstPos(ks: seq<Uuid>, k: Uuid): (n: nat)
    requires k in ks
    ensures n < |ks| && ks[n] == k
    ensures forall m :: 0 <= m < n ==> ks[m] != k
  {
    if ks[0] == k then 0 else 1 + FirstPos(ks[1..], k)
  }

  /** A position holding `k` with no `k` before it is the first occurrence. */
  lemma FirstPosUnique(ks: seq<Uuid>, k: Uuid, n: nat)
    requires n < |ks| && ks[n] == k
    requires forall m :: 0 <= m < n ==> ks[m] != k
    ensures FirstPos(ks, k) == n
  {
  }

  /** Appending a key does not move the first occurrence of a key already present. */
  lemma FirstPosSnoc(init: seq<Uuid>, k: Uuid, x: Uuid)
    requires x in init
    ensures FirstPos(init + [k], x) == FirstPos(init, x)
  {
    var p := FirstPos(init, x);
    var ks := init + [k];
    assert ks[p] == x;
    assert forall m :: 0 <= m < p ==> ks[m] == init[m];
    FirstPosUnique(ks, x, p);
  }

  /**
   * The enumerated keys come in order of first appearance in `ks`: an earlier
   * key of the result first occurs in `ks` before a later one does.
   */
  /** Every key of `r` occurs in `ks`, and earlier keys of `r` first occur earlier in `ks`. */
  ghost predicate InFirstOrder(ks: seq<Uuid>, r: seq<Uuid>)
  {
    && (forall i :: 0 <= i < |r| ==> r[i] in ks)
    && forall i, j :: 0 <= i < j < |r| ==> FirstPos(ks, r[i]) < FirstPos(ks, r[j])
  }

  lemma {:induction false} EnumerateInOrder(ks: seq<Uuid>, wanted: set<Uuid>)
    ensures InFirstOrder(ks, Enumerate(ks, wanted))
  {
    if |ks| > 0 {
      var init := ks[..|ks| - 1];
      var k := ks[|ks| - 1];
      assert ks == init + [k];
      var r0 := Enumerate(init, wanted);
      EnumerateInOrder(init, wanted);
      if k in wanted && k !in r0 {
        assert k !in init;
        OrderAppends(init, k, r0);
      } else {
        OrderExtends(init, k, r0);
      }
    }
  }

  /** Appending a key to `ks` keeps a list in first-occurrence order. */
  lemma OrderExtends(init: seq<Uuid>, k: Uuid, r: seq<Uuid>)
    requires InFirstOrder(init, r)
    ensures InFirstOrder(init + [k], r)
  {
    var ks := init + [k];
    forall i | 0 <= i < |r| ensures r[i] in ks && FirstPos(ks, r[i]) == FirstPos(init, r[i]) {
      FirstPosSnoc(init, k, r[i]);
    }
  }

  /** A key first seen at the end of `ks` may follow a list in first-occurrence order. */
  lemma OrderAppends(init: seq<Uuid>, k: Uuid, r: seq<Uuid>)
    requires InFirstOrder(init, r) && k !in init
    ensures InFirstOrder(init + [k], r + [k])
  {
    var ks := init + [k];
    OrderExtends(init, k, r);
    FirstPosUnique(ks, k, |init|);
    var r' := r + [k];
    forall i | 0 <= i < |r| ensures r'[i] == r[i] && FirstPos(ks, r[i]) < |init| {
      FirstPosSnoc(init, k, r[i]);
    }
  }

  /** A duplicate-free list of keys has as many elements as its set. */
  lemma {:induction false} DistinctCard(ks: seq<Uuid>)
    requires forall i, j :: 0 <= i < j < |ks| ==> ks[i] != ks[j]
    ensures |set k | k in ks| == |ks|
  {
    if |ks| > 0 {
      var init := ks[..|ks| - 1];
      DistinctCard(init);
      var last := ks[|ks| - 1];
      assert (set k | k in ks) == (set k | k in init) + {last} by {
        assert ks == init + [last];
      }
      assert last !in (set k | k in init);
    }
  }
}
