/** Circular doubly linked lists held in two link arrays, as the buffer cache keeps its
    LRU list: `ring` lists the nodes in `next` order, starting at the list head. */
module Ring {

  ghost predicate Distinct(s: seq<nat>) {
    forall i, j | 0 <= i < j < |s| :: s[i] != s[j]
  }

  function Succ(k: nat, n: nat): nat { if k + 1 == n then 0 else k + 1 }

  ghost predicate Linked(next: seq<nat>, prev: seq<nat>, ring: seq<nat>) {
    && |ring| > 0 && |next| == |prev| && Distinct(ring)
    && (forall k | 0 <= k < |ring| :: ring[k] < |next|)
    && (forall k {:trigger next[ring[k]]} | 0 <= k < |ring| :: next[ring[k]] == ring[Succ(k, |ring|)])
    && (forall k {:trigger prev[ring[Succ(k, |ring|)]]} | 0 <= k < |ring| :: prev[ring[Succ(k, |ring|)]] == ring[k])
  }

  ghost function Without(s: seq<nat>, k: nat): (r: seq<nat>)
    requires k < |s|
    ensures |r| == |s| - 1
    ensures forall j | 0 <= j < k :: r[j] == s[j]
    ensures forall j | k <= j < |r| :: r[j] == s[j+1]
  {
    s[..k] + s[k+1..]
  }

  ghost function FrontInserted(s: seq<nat>, b: nat): (r: seq<nat>)
    requires |s| > 0
    ensures |r| == |s| + 1 && r[0] == s[0] && r[1] == b
    ensures forall j | 2 <= j < |r| :: r[j] == s[j-1]
  {
    [s[0], b] + s[1..]
  }

  lemma WithoutDistinct(s: seq<nat>, k: nat)
    requires Distinct(s) && k < |s|
    ensures Distinct(Without(s, k)) && s[k] !in Without(s, k)
  {
  }

  lemma UnlinkNext(next: seq<nat>, prev: seq<nat>, ring: seq<nat>, k: nat, j: nat)
    requires Linked(next, prev, ring) && 1 <= k < |ring| && j < |ring| - 1
    ensures var r := Without(ring, k);
            next[ring[k-1] := ring[Succ(k, |ring|)]][r[j]] == r[Succ(j, |ring| - 1)]
  {
    var i := if j < k then j else j + 1;
    assert ring[i] == ring[k-1] <==> i == k - 1;
    assert next[ring[i]] == ring[Succ(i, |ring|)];
  }

  lemma UnlinkPrev(next: seq<nat>, prev: seq<nat>, ring: seq<nat>, k: nat, j: nat)
    requires Linked(next, prev, ring) && 1 <= k < |ring| && j < |ring| - 1
    ensures var r := Without(ring, k);
            prev[ring[Succ(k, |ring|)] := ring[k-1]][r[Succ(j, |ring| - 1)]] == r[j]
  {
    var n := |ring|;
    var i := if j < k then j else j + 1;
    assert prev[ring[Succ(i, n)]] == ring[i];
  }

  /** Taking b out of the list: its two neighbours are linked to each other. */
  lemma Unlink(next: seq<nat>, prev: seq<nat>, ring: seq<nat>, k: nat)
    requires Linked(next, prev, ring) && 1 <= k < |ring|
    ensures next[ring[k]] < |prev| && prev[ring[k]] < |next| && next[ring[k]] != ring[k]
    ensures Linked(next[prev[ring[k]] := next[ring[k]]], prev[next[ring[k]] := prev[ring[k]]], Without(ring, k))
    ensures ring[k] !in Without(ring, k)
  {
    var n := |ring|;
    assert next[ring[k]] == ring[Succ(k, n)] && prev[ring[Succ(k - 1, n)]] == ring[k-1];
    WithoutDistinct(ring, k);
    UnlinkAll(next, prev, ring, k, next[ring[k-1] := ring[Succ(k, n)]], prev[ring[Succ(k, n)] := ring[k-1]],
              Without(ring, k));
  }

  lemma UnlinkAll(next: seq<nat>, prev: seq<nat>, ring: seq<nat>, k: nat, next': seq<nat>, prev': seq<nat>, r: seq<nat>)
    requires Linked(next, prev, ring) && 1 <= k < |ring| && r == Without(ring, k) && Distinct(r)
    requires next' == next[ring[k-1] := ring[Succ(k, |ring|)]] && prev' == prev[ring[Succ(k, |ring|)] := ring[k-1]]
    ensures Linked(next', prev', r)
  {
    var n := |ring|;
    forall j | 0 <= j < n - 1 ensures next'[r[j]] == r[Succ(j, n - 1)] { UnlinkNext(next, prev, ring, k, j); }
    forall j | 0 <= j < n - 1 ensures prev'[r[Succ(j, n - 1)]] == r[j] { UnlinkPrev(next, prev, ring, k, j); }
  }

  /** Putting b at the front of the list: between the head and what has followed it. */
  lemma InsertFront(next: seq<nat>, prev: seq<nat>, ring: seq<nat>, b: nat)
    requires Linked(next, prev, ring) && b < |next| && b !in ring
    ensures next[ring[0]] < |prev|
    ensures var h := ring[0];
            Linked(next[b := next[h]][h := b], prev[b := h][next[h] := b], FrontInserted(ring, b))
  {
    var n, h, r := |ring|, ring[0], FrontInserted(ring, b);
    assert next[ring[0]] == ring[Succ(0, n)];
    var next', prev' := next[b := next[h]][h := b], prev[b := h][next[h] := b];
    forall j | 0 <= j < n + 1 ensures next'[r[j]] == r[Succ(j, n + 1)] {
      if j >= 2 { assert next[ring[j-1]] == ring[Succ(j - 1, n)]; }
    }
    forall j | 0 <= j < n + 1 ensures prev'[r[Succ(j, n + 1)]] == r[j] {
      if j >= 2 { assert prev[ring[Succ(j - 1, n)]] == ring[j-1]; }
    }
  }

  /** Unlink followed by InsertFront: the relinking brelse does for a buffer nobody uses. */
  lemma Relink(next: seq<nat>, prev: seq<nat>, ring: seq<nat>, k: nat)
    requires Linked(next, prev, ring) && 1 <= k < |ring|
    ensures var h, b := ring[0], ring[k];
            && next[b] < |prev| && prev[b] < |next| && next[b] != b
            && var prev1 := prev[next[b] := prev[b]]; var next1 := next[prev[b] := next[b]];
            && next1[h] < |prev|
            && Linked(next1[b := next1[h]][h := b], prev1[b := h][next1[h] := b], FrontInserted(Without(ring, k), b))
  {
    var h, b := ring[0], ring[k];
    Unlink(next, prev, ring, k);
    InsertFront(next[prev[b] := next[b]], prev[next[b] := prev[b]], Without(ring, k), b);
  }
}
