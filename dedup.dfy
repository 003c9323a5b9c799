/**
 * Order-preserving removal of items whose id was already seen (src/App.jsx).
 * The item type is generic and `id` picks an item's identifier, so the same
 * specification serves the raw API items and the normalised playlists.
 */
module Dedup {
  import opened Sequences

  /** The ids of all items of `xs`. */
  function Ids<T>(xs: seq<T>, id: T -> string): set<string> {
    set i | 0 <= i < |xs| :: id(xs[i])
  }

  /** No id occurs twice in `xs`. */
  ghost predicate Distinct<T>(xs: seq<T>, id: T -> string) {
    forall i, j :: 0 <= i < j < |xs| ==> id(xs[i]) != id(xs[j])
  }

  /** Position `i` holds the first item of `xs` with its id. */
  ghost predicate IsFirst<T>(xs: seq<T>, i: int, id: T -> string)
    requires 0 <= i < |xs|
  {
    forall j :: 0 <= j < i ==> id(xs[j]) != id(xs[i])
  }

  /**
   * The specification of both deduplications: scanning left to right, an
   * item is kept when no earlier item has its id.
   */
  function RemoveDuplicates<T>(xs: seq<T>, id: T -> string): (r: seq<T>)
    ensures |r| <= |xs|
    decreases |xs|
  {
    if xs == [] then []
    else
      var init := xs[..|xs| - 1];
      var rest := RemoveDuplicates(init, id);
      if id(xs[|xs| - 1]) in Ids(init, id) then rest else rest + [xs[|xs| - 1]]
  }

  lemma IdsSnoc<T>(xs: seq<T>, x: T, id: T -> string)
    ensures Ids(xs + [x], id) == Ids(xs, id) + {id(x)}
  {
    var ys := xs + [x];
    forall s | s in Ids(ys, id) ensures s in Ids(xs, id) + {id(x)} {
      var i :| 0 <= i < |ys| && id(ys[i]) == s;
      if i < |xs| { assert ys[i] == xs[i]; }
    }
    forall s | s in Ids(xs, id) ensures s in Ids(ys, id) {
      var i :| 0 <= i < |xs| && id(xs[i]) == s;
      assert ys[i] == xs[i];
    }
    assert ys[|xs|] == x;
  }

  /**
   * The result is the subsequence of `xs` at exactly the positions that hold
   * the first item with their id: first occurrences are kept, in their
   * original relative order, and nothing else is.
   */
  lemma {:induction false} RemoveDuplicatesKeepsFirsts<T>(xs: seq<T>, id: T -> string) returns (idx: seq<nat>)
    ensures SubseqAt(RemoveDuplicates(xs, id), xs, idx)
    ensures forall i :: 0 <= i < |xs| ==> (i in idx <==> IsFirst(xs, i, id))
    decreases |xs|
  {
    if xs == [] {
      idx := [];
    } else {
      var n := |xs| - 1;
      var init, x := xs[..n], xs[n];
      assert xs == init + [x];
      var idx0 := RemoveDuplicatesKeepsFirsts(init, id);
      forall i | 0 <= i < n ensures IsFirst(xs, i, id) == IsFirst(init, i, id) {
        assert forall j :: 0 <= j <= i ==> xs[j] == init[j];
      }
      if id(x) in Ids(init, id) {
        idx := idx0;
        var j :| 0 <= j < n && id(init[j]) == id(x);
        assert xs[j] == init[j];
        assert !IsFirst(xs, n, id);
        SubseqAtSkip(RemoveDuplicates(init, id), init, idx0, x);
      } else {
        idx := idx0 + [n];
        forall j | 0 <= j < n ensures id(xs[j]) != id(xs[n]) {
          assert xs[j] == init[j];
        }
        SubseqAtTake(RemoveDuplicates(init, id), init, idx0, x);
      }
    }
  }

  /** Every id of the input survives, and no other. */
  lemma {:induction false} RemoveDuplicatesIds<T>(xs: seq<T>, id: T -> string)
    ensures Ids(RemoveDuplicates(xs, id), id) == Ids(xs, id)
    decreases |xs|
  {
    if xs != [] {
      var n := |xs| - 1;
      var init, x := xs[..n], xs[n];
      assert xs == init + [x];
      RemoveDuplicatesIds(init, id);
      IdsSnoc(init, x, id);
      if id(x) !in Ids(init, id) {
        IdsSnoc(RemoveDuplicates(init, id), x, id);
      }
    }
  }

  /** The result never holds two items with the same id. */
  lemma {:induction false} RemoveDuplicatesDistinct<T>(xs: seq<T>, id: T -> string)
    ensures Distinct(RemoveDuplicates(xs, id), id)
    decreases |xs|
  {
    if xs != [] {
      var n := |xs| - 1;
      var init, x := xs[..n], xs[n];
      RemoveDuplicatesDistinct(init, id);
      if id(x) !in Ids(init, id) {
        var rest := RemoveDuplicates(init, id);
        RemoveDuplicatesIds(init, id);
        var r := rest + [x];
        forall i, j | 0 <= i < j < |r| ensures id(r[i]) != id(r[j]) {
          if j == |rest| {
            assert id(rest[i]) in Ids(rest, id);
          } else {
            assert r[i] == rest[i] && r[j] == rest[j];
          }
        }
      }
    }
  }

  /** A sequence whose ids are already distinct is left as it is. */
  lemma {:induction false} RemoveDuplicatesOfDistinct<T>(xs: seq<T>, id: T -> string)
    requires Distinct(xs, id)
    ensures RemoveDuplicates(xs, id) == xs
    decreases |xs|
  {
    if xs != [] {
      var n := |xs| - 1;
      var init, x := xs[..n], xs[n];
      assert xs == init + [x];
      assert Distinct(init, id) by {
        forall i, j | 0 <= i < j < |init| ensures id(init[i]) != id(init[j]) {
          assert init[i] == xs[i] && init[j] == xs[j];
        }
      }
      RemoveDuplicatesOfDistinct(init, id);
      forall j | 0 <= j < n ensures id(init[j]) != id(x) {
        assert xs[j] == init[j];
      }
      assert id(x) !in Ids(init, id);
    }
  }

  /** Removing duplicates twice is the same as removing them once. */
  lemma RemoveDuplicatesIdempotent<T>(xs: seq<T>, id: T -> string)
    ensures RemoveDuplicates(RemoveDuplicates(xs, id), id) == RemoveDuplicates(xs, id)
  {
    RemoveDuplicatesDistinct(xs, id);
    RemoveDuplicatesOfDistinct(RemoveDuplicates(xs, id), id);
  }

  /**
   * `removeDuplicates`: a `filter` whose callback asks a `Set` whether the
   * id was seen and then adds it.
   */
  method RemoveDuplicatesWithSet<T>(xs: seq<T>, id: T -> string) returns (r: seq<T>)
    ensures r == RemoveDuplicates(xs, id)
  {
    var seen: set<string> := {};
    r := [];
    for i := 0 to |xs|
      invariant seen == Ids(xs[..i], id)
      invariant r == RemoveDuplicates(xs[..i], id)
    {
      assert xs[..i + 1][..i] == xs[..i];
      IdsSnoc(xs[..i], xs[i], id);
      assert xs[..i + 1] == xs[..i] + [xs[i]];
      var duplicate := id(xs[i]) in seen;
      seen := seen + {id(xs[i])};
      if !duplicate {
        r := r + [xs[i]];
      }
    }
    assert xs[..|xs|] == xs;
  }

  /**
   * The deduplication inside `fetchPlaylists`: a `Map` filled by `forEach`
   * with `set` only for ids it does not have, then read back with
   * `Array.from(map.values())`. A JavaScript `Map` yields its values in the
   * order their keys were first set; `order` records that order.
   */
  method RemoveDuplicatesWithMap<T>(xs: seq<T>, id: T -> string) returns (r: seq<T>)
    ensures r == RemoveDuplicates(xs, id)
  {
    var entries: map<string, T> := map[];
    var order: seq<string> := [];
    for i := 0 to |xs|
      invariant entries.Keys == Ids(xs[..i], id)
      invariant |order| == |RemoveDuplicates(xs[..i], id)|
      invariant forall k :: 0 <= k < |order| ==>
                  order[k] in entries && entries[order[k]] == RemoveDuplicates(xs[..i], id)[k]
    {
      assert xs[..i + 1][..i] == xs[..i];
      IdsSnoc(xs[..i], xs[i], id);
      assert xs[..i + 1] == xs[..i] + [xs[i]];
      if id(xs[i]) !in entries {
        entries := entries[id(xs[i]) := xs[i]];
        order := order + [id(xs[i])];
      }
    }
    assert xs[..|xs|] == xs;
    r := [];
    for k := 0 to |order|
      invariant |r| == k
      invariant forall j :: 0 <= j < k ==> r[j] == entries[order[j]]
    {
      r := r + [entries[order[k]]];
    }
  }
}
