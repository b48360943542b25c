/** Named pointers with an append-only audit trail: the transaction both
    registries share (src/model_registry.rs, src/registry_db.rs). */
module Pointers {
  import opened Options

  datatype Table<K(==), H> = Table(pointers: map<K, H>, history: seq<(K, H)>)

  /** A key's trail, oldest first. */
  function Trail<K(==), H>(history: seq<(K, H)>, k: K): seq<H> {
    if history == [] then []
    else Trail(history[..|history| - 1], k) + (if history[|history| - 1].0 == k then [history[|history| - 1].1] else [])
  }

  lemma TrailSnoc<K, H>(history: seq<(K, H)>, k: K, h: H, j: K)
    ensures Trail(history + [(k, h)], j) == Trail(history, j) + (if k == j then [h] else [])
  {
    assert (history + [(k, h)])[..|history|] == history;
  }

  /** Every entry of a trail is a move of its key. */
  lemma {:induction false} TrailIsHistory<K, H>(history: seq<(K, H)>, k: K, i: nat) returns (j: nat)
    requires i < |Trail(history, k)|
    ensures j < |history| && history[j] == (k, Trail(history, k)[i])
  {
    var rest := history[..|history| - 1];
    if i < |Trail(rest, k)| { j := TrailIsHistory(rest, k, i); } else { j := |history| - 1; }
  }

  /** Upsert the pointer and append the move. */
  function Move<K, H>(t: Table<K, H>, k: K, h: H): Table<K, H> {
    Table(t.pointers[k := h], t.history + [(k, h)])
  }

  /** One key moved to h, and nothing else did. */
  ghost predicate MovedTo<K(!new), H>(t: Table<K, H>, u: Table<K, H>, k: K, h: H) {
    && k in u.pointers && u.pointers[k] == h && Trail(u.history, k) == Trail(t.history, k) + [h]
    && (forall j :: j != k ==> (j in u.pointers <==> j in t.pointers) && Trail(u.history, j) == Trail(t.history, j))
    && (forall j :: j != k && j in t.pointers ==> u.pointers[j] == t.pointers[j])
  }

  lemma MoveMoves<K(!new), H>(t: Table<K, H>, k: K, h: H)
    ensures MovedTo(t, Move(t, k, h), k, h)
  {
    hide Trail;
    forall j ensures Trail(Move(t, k, h).history, j) == Trail(t.history, j) + (if k == j then [h] else []) {
      TrailSnoc(t.history, k, h, j);
    }
  }

  /** Re-point an existing pointer and append the move; a missing row is not created. */
  function Repoint<K, H>(t: Table<K, H>, k: K, h: H): Table<K, H> {
    Table(if k in t.pointers then t.pointers[k := h] else t.pointers, t.history + [(k, h)])
  }

  /** The target before the current one. */
  function Previous<K, H>(t: Table<K, H>, k: K): Option<H> {
    var trail := Trail(t.history, k);
    if |trail| < 2 then None else Some(trail[|trail| - 2])
  }

  /** A pointer exists exactly when its trail is non-empty, and equals its last entry. */
  ghost predicate Consistent<K(!new), H>(t: Table<K, H>) {
    forall k :: PointsAtLast(t, k)
  }

  ghost predicate PointsAtLast<K, H>(t: Table<K, H>, k: K) {
    var trail := Trail(t.history, k);
    if trail == [] then k !in t.pointers else k in t.pointers && t.pointers[k] == trail[|trail| - 1]
  }

  lemma MoveConsistent<K(!new), H>(t: Table<K, H>, k: K, h: H)
    requires Consistent(t)
    ensures Consistent(Move(t, k, h))
  {
    hide Trail;
    forall j ensures PointsAtLast(Move(t, k, h), j) {
      assert PointsAtLast(t, j);
      TrailSnoc(t.history, k, h, j);
    }
  }

  /** On a consistent table with a previous target, re-pointing is a move. */
  lemma RepointIsMove<K(!new), H>(t: Table<K, H>, k: K, h: H)
    requires Consistent(t) && Previous(t, k).Some?
    ensures Repoint(t, k, h) == Move(t, k, h)
  {
    hide Trail;
    assert PointsAtLast(t, k);
  }

  /** A previous target exists exactly when the key has moved twice, and is then one
      of the targets it moved to. */
  lemma PreviousIff<K, H>(t: Table<K, H>, k: K)
    ensures Previous(t, k).Some? <==> |Trail(t.history, k)| >= 2
    ensures Previous(t, k).Some? ==> (k, Previous(t, k).value) in t.history
  {
    var n := |Trail(t.history, k)|;
    if n >= 2 {
      var j := TrailIsHistory(t.history, k, n - 2);
    }
  }

  /** Rolling back twice restores the pointer: the trail alternates. */
  lemma TwoRollbacks<K(!new), H>(t: Table<K, H>, k: K)
    requires Consistent(t) && Previous(t, k).Some?
    ensures var once := Move(t, k, Previous(t, k).value);
            && Previous(once, k).Some?
            && k in t.pointers
            && Previous(once, k).value == t.pointers[k]
            && Move(once, k, Previous(once, k).value).pointers == t.pointers
  {
    hide Trail;
    assert PointsAtLast(t, k);
    var prev := Previous(t, k).value;
    TrailSnoc(t.history, k, prev, k);
  }
}
