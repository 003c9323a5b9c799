/**
 * The derived view of src/App.jsx: deduplicate the playlists, sort them key
 * track count (or duration) in the chosen direction, keep those whose name
 * contains the search text, and cut out the current page of 20.
 */
module View {
  import opened Catalog
  import opened Dedup
  import opened Sequences

  datatype SortKey = Tracks | Duration

  const ItemsPerPage: nat := 20

  function SortValue(p: Playlist, key: SortKey): int {
    match key
    case Tracks => p.tracks
    case Duration => p.duration
  }

  /** The comparator given to `sort`: negative when `a` belongs before `b`. */
  function Compare(a: Playlist, b: Playlist, key: SortKey, ascending: bool): int {
    if ascending then SortValue(a, key) - SortValue(b, key) else SortValue(b, key) - SortValue(a, key)
  }

  /** No later item belongs strictly before an earlier one. */
  ghost predicate Ordered(s: seq<Playlist>, key: SortKey, ascending: bool) {
    forall i, j :: 0 <= i < j < |s| ==> Compare(s[i], s[j], key, ascending) <= 0
  }

  lemma OrderedTail(s: seq<Playlist>, key: SortKey, ascending: bool)
    requires s != [] && Ordered(s, key, ascending)
    ensures Ordered(s[1..], key, ascending)
    ensures forall k :: 0 <= k < |s| ==> Compare(s[0], s[k], key, ascending) <= 0
  {
    var t := s[1..];
    forall i, j | 0 <= i < j < |t| ensures Compare(t[i], t[j], key, ascending) <= 0 {
      assert t[i] == s[i + 1] && t[j] == s[j + 1];
    }
  }

  /** Places `x` before the first item of `s` that belongs strictly after it. */
  function Insert(s: seq<Playlist>, x: Playlist, key: SortKey, ascending: bool): seq<Playlist> {
    if s == [] then [x]
    else if Compare(s[0], x, key, ascending) > 0 then [x] + s
    else [s[0]] + Insert(s[1..], x, key, ascending)
  }

  lemma {:induction false} InsertPermutes(s: seq<Playlist>, x: Playlist, key: SortKey, ascending: bool)
    ensures multiset(Insert(s, x, key, ascending)) == multiset(s) + multiset{x}
  {
    if s != [] && Compare(s[0], x, key, ascending) <= 0 {
      InsertPermutes(s[1..], x, key, ascending);
      assert s == [s[0]] + s[1..];
    }
  }

  /**
   * `Array.prototype.sort` with the comparator above. The sort is stable,
   * so the result is the one insertion sort gives: each item goes after
   * every earlier item that does not belong strictly after it.
   */
  function Sort(xs: seq<Playlist>, key: SortKey, ascending: bool): seq<Playlist> {
    if xs == [] then []
    else Insert(Sort(xs[..|xs| - 1], key, ascending), xs[|xs| - 1], key, ascending)
  }

  /** An item that belongs no later than `x` and every item of `t` belongs no later than anything in `Insert(t, x)`. */
  lemma {:induction false} InsertKeepsLowerBound(t: seq<Playlist>, x: Playlist, a: Playlist, key: SortKey, ascending: bool)
    requires forall k :: 0 <= k < |t| ==> Compare(a, t[k], key, ascending) <= 0
    requires Compare(a, x, key, ascending) <= 0
    ensures forall k :: 0 <= k < |Insert(t, x, key, ascending)| ==> Compare(a, Insert(t, x, key, ascending)[k], key, ascending) <= 0
  {
    if t != [] && Compare(t[0], x, key, ascending) <= 0 {
      var u := t[1..];
      forall k | 0 <= k < |u| ensures Compare(a, u[k], key, ascending) <= 0 {
        assert u[k] == t[k + 1];
      }
      InsertKeepsLowerBound(u, x, a, key, ascending);
    }
  }

  lemma {:induction false} InsertOrdered(s: seq<Playlist>, x: Playlist, key: SortKey, ascending: bool)
    requires Ordered(s, key, ascending)
    ensures Ordered(Insert(s, x, key, ascending), key, ascending)
  {
    if s != [] && Compare(s[0], x, key, ascending) <= 0 {
      var t := s[1..];
      OrderedTail(s, key, ascending);
      InsertOrdered(t, x, key, ascending);
      forall k | 0 <= k < |t| ensures Compare(s[0], t[k], key, ascending) <= 0 {
        assert t[k] == s[k + 1];
      }
      InsertKeepsLowerBound(t, x, s[0], key, ascending);
      var it := Insert(t, x, key, ascending);
      var r := [s[0]] + it;
      forall i, j | 0 <= i < j < |r| ensures Compare(r[i], r[j], key, ascending) <= 0 {
        assert r[j] == it[j - 1];
        if i > 0 { assert r[i] == it[i - 1]; }
      }
    } else if s != [] {
      var r := [x] + s;
      forall i, j | 0 <= i < j < |r| ensures Compare(r[i], r[j], key, ascending) <= 0 {
        assert r[j] == s[j - 1];
        if i > 0 { assert r[i] == s[i - 1]; } else { OrderedTail(s, key, ascending); }
      }
    }
  }

  lemma {:induction false} SortOrdered(xs: seq<Playlist>, key: SortKey, ascending: bool)
    ensures Ordered(Sort(xs, key, ascending), key, ascending)
    decreases |xs|
  {
    if xs != [] {
      var n := |xs| - 1;
      SortOrdered(xs[..n], key, ascending);
      InsertOrdered(Sort(xs[..n], key, ascending), xs[n], key, ascending);
    }
  }

  lemma {:induction false} SortPermutes(xs: seq<Playlist>, key: SortKey, ascending: bool)
    ensures multiset(Sort(xs, key, ascending)) == multiset(xs)
    decreases |xs|
  {
    if xs != [] {
      var n := |xs| - 1;
      SortPermutes(xs[..n], key, ascending);
      InsertPermutes(Sort(xs[..n], key, ascending), xs[n], key, ascending);
      assert xs == xs[..n] + [xs[n]];
    }
  }

  /**
   * The sorted list is a permutation of its input, ordered by the sort
   * value: non-decreasing when ascending, non-increasing otherwise.
   */
  lemma SortSorts(xs: seq<Playlist>, key: SortKey, ascending: bool)
    ensures multiset(Sort(xs, key, ascending)) == multiset(xs)
    ensures forall i, j :: 0 <= i < j < |Sort(xs, key, ascending)| ==>
              if ascending then SortValue(Sort(xs, key, ascending)[i], key) <= SortValue(Sort(xs, key, ascending)[j], key)
              else SortValue(Sort(xs, key, ascending)[i], key) >= SortValue(Sort(xs, key, ascending)[j], key)
  {
    SortPermutes(xs, key, ascending);
    SortOrdered(xs, key, ascending);
  }

  /** The items of `xs` whose sort value is `v`, in order. */
  function WithValue(xs: seq<Playlist>, key: SortKey, v: int): seq<Playlist> {
    if xs == [] then []
    else (if SortValue(xs[0], key) == v then [xs[0]] else []) + WithValue(xs[1..], key, v)
  }

  lemma {:induction false} WithValueAppend(a: seq<Playlist>, b: seq<Playlist>, key: SortKey, v: int)
    ensures WithValue(a + b, key, v) == WithValue(a, key, v) + WithValue(b, key, v)
    decreases |a|
  {
    if a != [] {
      assert (a + b)[1..] == a[1..] + b;
      WithValueAppend(a[1..], b, key, v);
    } else {
      assert a + b == b;
    }
  }

  lemma {:induction false} WithValueNone(s: seq<Playlist>, key: SortKey, v: int)
    requires forall k :: 0 <= k < |s| ==> SortValue(s[k], key) != v
    ensures WithValue(s, key, v) == []
    decreases |s|
  {
    if s != [] { WithValueNone(s[1..], key, v); }
  }

  lemma WithValueCons(y: Playlist, s: seq<Playlist>, key: SortKey, v: int)
    ensures WithValue([y] + s, key, v) == (if SortValue(y, key) == v then [y] else []) + WithValue(s, key, v)
  {
    assert ([y] + s)[0] == y && ([y] + s)[1..] == s;
  }

  /** `x` placed in front of items that all belong strictly after it. */
  lemma InsertFrontWithValue(s: seq<Playlist>, x: Playlist, key: SortKey, ascending: bool, v: int)
    requires s != [] && Ordered(s, key, ascending) && Compare(s[0], x, key, ascending) > 0
    ensures WithValue([x] + s, key, v) == WithValue(s, key, v) + (if SortValue(x, key) == v then [x] else [])
  {
    WithValueCons(x, s, key, v);
    if SortValue(x, key) == v {
      forall k | 0 <= k < |s| ensures SortValue(s[k], key) != v {
        if k > 0 { assert Compare(s[0], s[k], key, ascending) <= 0; }
      }
      WithValueNone(s, key, v);
    } else {
      assert [] + WithValue(s, key, v) == WithValue(s, key, v) + [];
    }
  }

  lemma {:induction false} InsertWithValue(s: seq<Playlist>, x: Playlist, key: SortKey, ascending: bool, v: int)
    requires Ordered(s, key, ascending)
    ensures WithValue(Insert(s, x, key, ascending), key, v)
         == WithValue(s, key, v) + (if SortValue(x, key) == v then [x] else [])
    decreases |s|
  {
    if s == [] {
      WithValueCons(x, [], key, v);
      assert [x] == [x] + [];
    } else if Compare(s[0], x, key, ascending) > 0 {
      InsertFrontWithValue(s, x, key, ascending, v);
    } else {
      var s0, t := s[0], s[1..];
      var xv := if SortValue(x, key) == v then [x] else [];
      var s0v := if SortValue(s0, key) == v then [s0] else [];
      assert WithValue(s, key, v) == s0v + WithValue(t, key, v);
      assert Ordered(t, key, ascending) by { OrderedTail(s, key, ascending); }
      InsertWithValue(t, x, key, ascending, v);
      var it := Insert(t, x, key, ascending);
      WithValueCons(s0, it, key, v);
      assert s0v + (WithValue(t, key, v) + xv) == (s0v + WithValue(t, key, v)) + xv;
    }
  }

  /**
   * The sort is stable: for every sort value, the items carrying it appear
   * in the sorted list in the same order as in the input.
   */
  lemma {:induction false} SortStable(xs: seq<Playlist>, key: SortKey, ascending: bool, v: int)
    ensures WithValue(Sort(xs, key, ascending), key, v) == WithValue(xs, key, v)
    decreases |xs|
  {
    if xs != [] {
      var n := |xs| - 1;
      var init, x := xs[..n], xs[n];
      var s := Sort(init, key, ascending);
      var xv := if SortValue(x, key) == v then [x] else [];
      assert Sort(xs, key, ascending) == Insert(s, x, key, ascending);
      SortStable(init, key, ascending, v);
      SortOrdered(init, key, ascending);
      InsertWithValue(s, x, key, ascending, v);
      assert WithValue(Sort(xs, key, ascending), key, v) == WithValue(init, key, v) + xv;
      assert xs == init + [x];
      WithValueAppend(init, [x], key, v);
      assert WithValue([x], key, v) == xv + WithValue([], key, v);
    }
  }

  lemma {:induction false} WithValueAll(s: seq<Playlist>, key: SortKey, v: int)
    requires forall k :: 0 <= k < |s| ==> SortValue(s[k], key) == v
    ensures WithValue(s, key, v) == s
    decreases |s|
  {
    if s != [] { WithValueAll(s[1..], key, v); }
  }

  /**
   * Every normalised playlist has duration 0, so sorting such a list key
   * duration, in either direction, leaves it as it is.
   */
  lemma SortByDurationKeepsOrder(xs: seq<Playlist>, ascending: bool)
    requires forall k :: 0 <= k < |xs| ==> xs[k].duration == 0
    ensures Sort(xs, Duration, ascending) == xs
  {
    var r := Sort(xs, Duration, ascending);
    SortPermutes(xs, Duration, ascending);
    forall k | 0 <= k < |r| ensures SortValue(r[k], Duration) == 0 {
      assert r[k] in multiset(xs);
    }
    SortStable(xs, Duration, ascending, 0);
    WithValueAll(r, Duration, 0);
    WithValueAll(xs, Duration, 0);
  }

  /** ASCII case folding, standing in for `toLowerCase`. */
  function LowerChar(c: char): char {
    if 'A' <= c <= 'Z' then (c as int + 32) as char else c
  }

  function Lower(s: string): string {
    seq(|s|, i requires 0 <= i < |s| => LowerChar(s[i]))
  }

  /** `s.includes(t)`: `t` occurs in `s` at some position. */
  predicate Includes(s: string, t: string)
    decreases |s|
  {
    (|t| <= |s| && s[..|t|] == t) || (s != [] && Includes(s[1..], t))
  }

  /** The search predicate: the lower-cased name contains the lower-cased query. */
  predicate Matches(p: Playlist, query: string) {
    Includes(Lower(p.name), Lower(query))
  }

  /** `filter` with the search predicate. */
  function FilterByName(ps: seq<Playlist>, query: string): (r: seq<Playlist>)
    ensures |r| <= |ps|
  {
    if ps == [] then []
    else (if Matches(ps[0], query) then [ps[0]] else []) + FilterByName(ps[1..], query)
  }

  lemma FilterSingle(x: Playlist, query: string)
    ensures FilterByName([x], query) == if Matches(x, query) then [x] else []
  {
    assert FilterByName([x], query) == (if Matches(x, query) then [x] else []) + FilterByName([], query);
  }

  /**
   * The filtered list is the subsequence of its input at exactly the
   * positions whose playlist matches the search text.
   */
  lemma {:induction false} FilterKeepsMatches(ps: seq<Playlist>, query: string) returns (idx: seq<nat>)
    ensures SubseqAt(FilterByName(ps, query), ps, idx)
    ensures forall i :: 0 <= i < |ps| ==> (i in idx <==> Matches(ps[i], query))
    decreases |ps|
  {
    if ps == [] {
      idx := [];
    } else {
      var n := |ps| - 1;
      var init, x := ps[..n], ps[n];
      var idx0 := FilterKeepsMatches(init, query);
      var r0 := FilterByName(init, query);
      assert ps == init + [x];
      FilterAppend(init, [x], query);
      FilterSingle(x, query);
      if Matches(x, query) {
        idx := idx0 + [n];
        SubseqAtTake(r0, init, idx0, x);
      } else {
        idx := idx0;
        SubseqAtSkip(r0, init, idx0, x);
        assert r0 + [] == r0;
      }
      forall i | 0 <= i < |ps| ensures (i in idx <==> Matches(ps[i], query)) {
        if i < n {
          assert ps[i] == init[i];
          assert i in idx <==> i in idx0;
        }
      }
    }
  }

  /** An empty search text keeps every playlist. */
  lemma {:induction false} FilterEmptyQuery(ps: seq<Playlist>)
    ensures FilterByName(ps, "") == ps
    decreases |ps|
  {
    if ps != [] {
      assert Lower(ps[0].name)[0..0] == Lower("");
      FilterEmptyQuery(ps[1..]);
    }
  }

  lemma {:induction false} FilterAppend(a: seq<Playlist>, b: seq<Playlist>, query: string)
    ensures FilterByName(a + b, query) == FilterByName(a, query) + FilterByName(b, query)
    decreases |a|
  {
    if a != [] {
      assert (a + b)[1..] == a[1..] + b;
      FilterAppend(a[1..], b, query);
    } else {
      assert a + b == b;
    }
  }

  lemma {:induction false} InsertBeforeAll(t: seq<Playlist>, x: Playlist, key: SortKey, ascending: bool)
    requires forall k :: 0 <= k < |t| ==> Compare(t[k], x, key, ascending) > 0
    ensures Insert(t, x, key, ascending) == [x] + t
  {
  }

  lemma FilterCons(y: Playlist, s: seq<Playlist>, query: string)
    ensures FilterByName([y] + s, query) == (if Matches(y, query) then [y] else []) + FilterByName(s, query)
  {
    assert ([y] + s)[0] == y && ([y] + s)[1..] == s;
  }

  /** `x` placed in front of items that all belong strictly after it. */
  lemma FilterInsertFront(s: seq<Playlist>, x: Playlist, key: SortKey, ascending: bool, query: string)
    requires s != [] && Ordered(s, key, ascending) && Compare(s[0], x, key, ascending) > 0
    ensures FilterByName([x] + s, query)
         == if Matches(x, query) then Insert(FilterByName(s, query), x, key, ascending) else FilterByName(s, query)
  {
    var fs := FilterByName(s, query);
    FilterCons(x, s, query);
    if Matches(x, query) {
      var idx := FilterKeepsMatches(s, query);
      forall k | 0 <= k < |fs| ensures Compare(fs[k], x, key, ascending) > 0 {
        assert fs[k] == s[idx[k]];
        if idx[k] > 0 { assert Compare(s[0], s[idx[k]], key, ascending) <= 0; }
      }
      InsertBeforeAll(fs, x, key, ascending);
    } else {
      assert [] + fs == fs;
    }
  }

  lemma {:induction false} FilterInsert(s: seq<Playlist>, x: Playlist, key: SortKey, ascending: bool, query: string)
    requires Ordered(s, key, ascending)
    ensures FilterByName(Insert(s, x, key, ascending), query)
         == if Matches(x, query) then Insert(FilterByName(s, query), x, key, ascending) else FilterByName(s, query)
    decreases |s|
  {
    if s == [] {
      FilterSingle(x, query);
    } else {
      var s0, t := s[0], s[1..];
      var fs, ft := FilterByName(s, query), FilterByName(t, query);
      assert fs == (if Matches(s0, query) then [s0] else []) + ft;
      if Compare(s0, x, key, ascending) > 0 {
        FilterInsertFront(s, x, key, ascending, query);
      } else {
        assert Ordered(t, key, ascending) by { OrderedTail(s, key, ascending); }
        FilterInsert(t, x, key, ascending, query);
        var it := Insert(t, x, key, ascending);
        assert Insert(s, x, key, ascending) == [s0] + it;
        FilterCons(s0, it, query);
        if Matches(s0, query) {
          if Matches(x, query) {
            var ift := Insert(ft, x, key, ascending);
            assert ([s0] + ft)[0] == s0 && ([s0] + ft)[1..] == ft;
            assert Insert([s0] + ft, x, key, ascending) == [s0] + ift;
          }
        } else {
          assert fs == ft;
          assert [] + FilterByName(it, query) == FilterByName(it, query);
        }
      }
    }
  }

  /**
   * Sorting then filtering (what the code does) gives the same list as
   * filtering then sorting.
   */
  lemma {:induction false} FilterSortCommute(xs: seq<Playlist>, key: SortKey, ascending: bool, query: string)
    ensures FilterByName(Sort(xs, key, ascending), query) == Sort(FilterByName(xs, query), key, ascending)
    decreases |xs|
  {
    if xs != [] {
      var n := |xs| - 1;
      var init, x := xs[..n], xs[n];
      var s := Sort(init, key, ascending);
      FilterSortCommute(init, key, ascending, query);
      SortOrdered(init, key, ascending);
      FilterInsert(s, x, key, ascending, query);
      FilterSnoc(xs, query);
      var fi := FilterByName(init, query);
      assert Sort(xs, key, ascending) == Insert(s, x, key, ascending);
      if Matches(x, query) {
        assert FilterByName(xs, query) == fi + [x];
        SortSnoc(fi, x, key, ascending);
      } else {
        assert FilterByName(xs, query) == fi + [];
        assert fi + [] == fi;
      }
    }
  }

  /** The filter of a non-empty list, taken from its last item. */
  lemma FilterSnoc(xs: seq<Playlist>, query: string)
    requires xs != []
    ensures FilterByName(xs, query)
         == FilterByName(xs[..|xs| - 1], query) + (if Matches(xs[|xs| - 1], query) then [xs[|xs| - 1]] else [])
  {
    var n := |xs| - 1;
    assert xs == xs[..n] + [xs[n]];
    FilterAppend(xs[..n], [xs[n]], query);
    FilterSingle(xs[n], query);
  }

  lemma SortSnoc(xs: seq<Playlist>, x: Playlist, key: SortKey, ascending: bool)
    ensures Sort(xs + [x], key, ascending) == Insert(Sort(xs, key, ascending), x, key, ascending)
  {
    assert (xs + [x])[..|xs|] == xs;
  }

  /** `Math.ceil(n / itemsPerPage)`. */
  function TotalPages(n: nat): (r: nat)
    ensures r * ItemsPerPage >= n
    ensures r > 0 ==> (r - 1) * ItemsPerPage < n
    ensures r == 0 <==> n == 0
  {
    (n + ItemsPerPage - 1) / ItemsPerPage
  }

  /** `slice(page * itemsPerPage, (page + 1) * itemsPerPage)`. */
  function PageOf<T>(xs: seq<T>, page: nat): (r: seq<T>)
    ensures |r| <= ItemsPerPage
    ensures r == [] <==> page * ItemsPerPage >= |xs|
    ensures forall k :: 0 <= k < |r| ==> page * ItemsPerPage + k < |xs| && r[k] == xs[page * ItemsPerPage + k]
    ensures page * ItemsPerPage < |xs| ==> |r| == if |xs| - page * ItemsPerPage < ItemsPerPage then |xs| - page * ItemsPerPage else ItemsPerPage
  {
    var start, end := page * ItemsPerPage, (page + 1) * ItemsPerPage;
    if start >= |xs| then [] else xs[start..if end < |xs| then end else |xs|]
  }

  /** A page is non-empty exactly when its index is below the page count. */
  lemma PageInRange<T>(xs: seq<T>, page: nat)
    ensures PageOf(xs, page) != [] <==> page < TotalPages(|xs|)
  {
    var tp := TotalPages(|xs|);
    if page < tp {
      assert page <= tp - 1;
      assert page * ItemsPerPage <= (tp - 1) * ItemsPerPage;
    } else {
      assert page * ItemsPerPage >= tp * ItemsPerPage;
    }
  }

  /** Pages 0 .. k - 1, one after the other. */
  function PagesUpTo<T>(xs: seq<T>, k: nat): seq<T> {
    if k == 0 then [] else PagesUpTo(xs, k - 1) + PageOf(xs, k - 1)
  }

  lemma {:induction false} PagesUpToPrefix<T>(xs: seq<T>, k: nat)
    ensures PagesUpTo(xs, k) == xs[..if k * ItemsPerPage < |xs| then k * ItemsPerPage else |xs|]
  {
    if k > 0 {
      PagesUpToPrefix(xs, k - 1);
      var a := (k - 1) * ItemsPerPage;
      if a < |xs| {
        var b := if k * ItemsPerPage < |xs| then k * ItemsPerPage else |xs|;
        assert PageOf(xs, k - 1) == xs[a..b];
        assert xs[..a] + xs[a..b] == xs[..b];
      }
    }
  }

  /** Concatenating pages 0 .. totalPages - 1 gives back the whole filtered list. */
  lemma PagesReassemble<T>(xs: seq<T>)
    ensures PagesUpTo(xs, TotalPages(|xs|)) == xs
  {
    PagesUpToPrefix(xs, TotalPages(|xs|));
    assert xs[..|xs|] == xs;
  }

  /** What the component renders from its state. */
  datatype ViewResult = ViewResult(filtered: seq<Playlist>, totalPages: nat, displayed: seq<Playlist>)

  /** The pipeline: deduplicate, sort, filter, paginate. */
  function Derive(playlists: seq<Playlist>, key: SortKey, ascending: bool, query: string, page: nat): (v: ViewResult)
    ensures |v.displayed| <= ItemsPerPage
  {
    var unique := RemoveDuplicates(playlists, PlaylistId);
    var sorted := Sort(unique, key, ascending);
    var filtered := FilterByName(sorted, query);
    ViewResult(filtered, TotalPages(|filtered|), PageOf(filtered, page))
  }

  /**
   * On a collection with distinct ids the deduplication changes nothing,
   * and the filtered list is the stable sort of the matching playlists.
   */
  lemma DeriveOfDistinct(playlists: seq<Playlist>, key: SortKey, ascending: bool, query: string, page: nat)
    requires Distinct(playlists, PlaylistId)
    ensures Derive(playlists, key, ascending, query, page).filtered == Sort(FilterByName(playlists, query), key, ascending)
  {
    RemoveDuplicatesOfDistinct(playlists, PlaylistId);
    FilterSortCommute(playlists, key, ascending, query);
  }
}
