/** Doubly linked rings stored in next/prev index arrays. A ring is written out
    as the sequence of its nodes, starting and ending at the head. */
module LruList {

  /** Following next along ring, and prev against it, visits exactly these nodes. */
  ghost predicate Chain(next: seq<nat>, prev: seq<nat>, ring: seq<nat>) {
    && |next| == |prev|
    && |ring| >= 2
    && ring[0] == ring[|ring| - 1]
    && (forall k :: 0 <= k < |ring| ==> ring[k] < |next|)
    && (forall k, l :: 0 <= k < l < |ring| - 1 ==> ring[k] != ring[l])
    && forall k :: 0 <= k < |ring| - 1 ==> next[ring[k]] == ring[k + 1] && prev[ring[k + 1]] == ring[k]
  }

  /** The ring without its k-th node. */
  function Without(ring: seq<nat>, k: nat): seq<nat>
    requires k < |ring|
  {
    ring[..k] + ring[k + 1..]
  }

  /** The two assignments that take a node out of its ring. */
  lemma Unlinked(next: seq<nat>, prev: seq<nat>, ring: seq<nat>, k: nat)
    requires Chain(next, prev, ring) && 0 < k < |ring| - 1
    ensures next[ring[k]] < |prev| && prev[ring[k]] < |next|
    ensures var b := ring[k];
            Chain(next[prev[b] := next[b]], prev[next[b] := prev[b]], Without(ring, k))
  {
    var b := ring[k];
    assert next[ring[k]] == ring[k + 1] && prev[ring[k - 1 + 1]] == ring[k - 1];
    var r := Without(ring, k);
    var next', prev' := next[prev[b] := next[b]], prev[next[b] := prev[b]];
    forall j | 0 <= j < |r| - 1 ensures next'[r[j]] == r[j + 1] && prev'[r[j + 1]] == r[j] {
      if j < k - 1 {
        assert next[ring[j]] == ring[j + 1] && prev[ring[j + 1]] == ring[j];
      } else if j >= k {
        assert next[ring[j + 1]] == ring[j + 2] && prev[ring[j + 2]] == ring[j + 1];
      }
    }
  }

  /** The four assignments that put node b right after the head. */
  lemma Pushed(next: seq<nat>, prev: seq<nat>, ring: seq<nat>, b: nat)
    requires Chain(next, prev, ring) && b < |next| && b !in ring
    ensures var head, first := ring[0], ring[1];
            Chain(next[b := first][head := b], prev[b := head][first := b], [head, b] + ring[1..])
  {
    var head, first := ring[0], ring[1];
    assert next[ring[0]] == ring[1] && prev[ring[0 + 1]] == ring[0];
    var next', prev' := next[b := first][head := b], prev[b := head][first := b];
    var r := [head, b] + ring[1..];
    assert ring[|ring| - 1] in ring && first in ring && head in ring;
    forall j | 0 <= j < |r| - 1 ensures next'[r[j]] == r[j + 1] && prev'[r[j + 1]] == r[j] {
      if j >= 2 {
        assert ring[j - 1] in ring && ring[j] in ring;
        assert next[ring[j - 1]] == ring[j] && prev[ring[j]] == ring[j - 1];
        assert r[j] == ring[j - 1] && r[j + 1] == ring[j];
        assert ring[j - 1] != ring[0];
        assert ring[j] != first by {
          if j == |ring| - 1 {
            assert ring[j] == ring[0];
          }
        }
      }
    }
    forall k, l | 0 <= k < l < |r| - 1 ensures r[k] != r[l] {
      assert l >= 2 ==> r[l] == ring[l - 1] && ring[l - 1] in ring;
      assert k >= 2 ==> r[k] == ring[k - 1];
    }
  }
}
