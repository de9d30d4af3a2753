/** The history fetch for one device over a time window [start, end): one
    filtered request first, and when that fails or comes back empty a
    bounded walk over unfiltered pages, keeping only readings inside the
    window; the result is sorted by time either way. The server's answers
    are inputs: `first` for the filtered request, `page(p)` for page `p` of
    the unfiltered walk. Each item is normalised by `normalize`, which the
    dashboard instantiates with `Readings.NormalizeHistoryItem`; nothing
    below depends on how an item is normalised. */
module RangeFetch {
  import opened Wrappers
  import opened Js
  import opened Timestamps
  import opened Readings

  /** The reading items of an answer: `res.data` when that is an array, else
      `res` itself when it is an array, else none. */
  function ItemsOf(res: Json): (items: seq<Json>)
    ensures Get(res, "data").Arr? ==> items == Get(res, "data").items
    ensures !Get(res, "data").Arr? && res.Arr? ==> items == res.items
    ensures !Get(res, "data").Arr? && !res.Arr? ==> items == []
  {
    var data := Get(res, "data");
    if data.Arr? then data.items else if res.Arr? then res.items else []
  }

  /** `t >= start && t < end` on Dates: false whenever one of them is invalid. */
  predicate InWindow(t: Time, start: Time, end: Time)
  {
    t.At? && start.At? && end.At? && start.ms <= t.ms < end.ms
  }

  /** `items.map(normalize)`. */
  function Normalized(items: seq<Json>, normalize: Json -> HistoryItem): seq<HistoryItem>
  {
    if items == [] then []
    else [normalize(items[0])] + Normalized(items[1..], normalize)
  }

  /** Normalising keeps the items' number and order. */
  lemma {:induction false} NormalizedAt(items: seq<Json>, normalize: Json -> HistoryItem)
    ensures |Normalized(items, normalize)| == |items|
    ensures forall i :: 0 <= i < |items| ==> Normalized(items, normalize)[i] == normalize(items[i])
  {
    if items != [] {
      NormalizedAt(items[1..], normalize);
    }
  }

  /** The items whose time lies in the window, in their original order. */
  function Window(hs: seq<HistoryItem>, start: Time, end: Time): seq<HistoryItem>
  {
    if hs == [] then []
    else if InWindow(hs[0].ts, start, end) then [hs[0]] + Window(hs[1..], start, end)
    else Window(hs[1..], start, end)
  }

  /** The window keeps exactly the items whose time lies in it. */
  lemma {:induction false} WindowMembers(hs: seq<HistoryItem>, start: Time, end: Time)
    ensures |Window(hs, start, end)| <= |hs|
    ensures forall h :: h in Window(hs, start, end) <==> h in hs && InWindow(h.ts, start, end)
  {
    if hs != [] {
      WindowMembers(hs[1..], start, end);
      assert hs == [hs[0]] + hs[1..];
    }
  }

  // ------------------------------------------------------------ sorting by time

  function Key(h: HistoryItem): int { if h.ts.At? then h.ts.ms else 0 }

  predicate SortedByTs(s: seq<HistoryItem>)
  {
    forall i, j :: 0 <= i < j < |s| ==> Key(s[i]) <= Key(s[j])
  }

  /** Puts `x` after every element whose time is not later, so that equal
      times keep their order. */
  function Insert(x: HistoryItem, s: seq<HistoryItem>): (r: seq<HistoryItem>)
    requires SortedByTs(s)
    ensures SortedByTs(r)
    ensures multiset(r) == multiset(s) + multiset{x}
    ensures |r| == |s| + 1
  {
    if s == [] then [x]
    else if Key(x) < Key(s[0]) then
      ConsSorted(x, s);
      [x] + s
    else
      var rest := Insert(x, s[1..]);
      KeysFrom(s[1..], rest, x, Key(s[0]));
      ConsSorted(s[0], rest);
      assert s == [s[0]] + s[1..];
      [s[0]] + rest
  }

  lemma ConsSorted(h: HistoryItem, s: seq<HistoryItem>)
    requires SortedByTs(s) && forall k :: 0 <= k < |s| ==> Key(h) <= Key(s[k])
    ensures SortedByTs([h] + s)
  {
  }

  /** A lower bound on the keys of `s` and of `x` bounds every key of a
      sequence holding the same items as `s` plus `x`. */
  lemma KeysFrom(s: seq<HistoryItem>, r: seq<HistoryItem>, x: HistoryItem, b: int)
    requires multiset(r) == multiset(s) + multiset{x}
    requires b <= Key(x) && forall k :: 0 <= k < |s| ==> b <= Key(s[k])
    ensures forall k :: 0 <= k < |r| ==> b <= Key(r[k])
  {
    forall k | 0 <= k < |r| ensures b <= Key(r[k]) {
      assert r[k] in multiset(r);
      if r[k] != x {
        assert r[k] in multiset(s);
        var j :| 0 <= j < |s| && s[j] == r[k];
      }
    }
  }

  /** `points.sort((a, b) => a.ts - b.ts)`: a stable sort by time. */
  function SortByTs(s: seq<HistoryItem>): (r: seq<HistoryItem>)
    ensures SortedByTs(r)
    ensures multiset(r) == multiset(s)
    ensures |r| == |s|
  {
    if s == [] then []
    else
      assert s == s[..|s| - 1] + [s[|s| - 1]];
      Insert(s[|s| - 1], SortByTs(s[..|s| - 1]))
  }

  // ------------------------------------------------------------ the specification

  /** The unfiltered walk from page `p` with `left` page requests still
      allowed: the window's readings of every page up to the first empty
      page, the first page whose `meta.hasNext` is false, or the last page
      allowed; a failed request fails the whole walk. */
  function Walk(page: nat -> Reply, p: nat, left: int, start: Time, end: Time,
                normalize: Json -> HistoryItem): Result<seq<HistoryItem>, Failure>
    decreases if left > 0 then left else 0
  {
    if left <= 0 then Ok([])
    else match page(p)
      case Threw => Err(RequestFailed)
      case Returned(res) =>
        var items := ItemsOf(res);
        if items == [] then Ok([])
        else
          var chunk := PageChunk(res, start, end, normalize);
          if LastPage(res) then Ok(chunk)
          else match Walk(page, p + 1, left - 1, start, end, normalize)
            case Err(e) => Err(e)
            case Ok(more) => Ok(chunk + more)
  }

  /** The readings of one answer that lie in the window. */
  function PageChunk(res: Json, start: Time, end: Time, normalize: Json -> HistoryItem): seq<HistoryItem>
  {
    Window(Normalized(ItemsOf(res), normalize), start, end)
  }

  /** `res?.meta && res.meta.hasNext === false` */
  predicate LastPage(res: Json)
  {
    Truthy(Get(res, "meta")) && Get2(res, "meta", "hasNext") == Bool(false)
  }

  /** The page numbers the walk from page `p` requests. */
  function WalkRequests(page: nat -> Reply, p: nat, left: int): (ps: seq<nat>)
    decreases if left > 0 then left else 0
  {
    if left <= 0 then []
    else match page(p)
      case Threw => [p]
      case Returned(res) =>
        if ItemsOf(res) == [] || LastPage(res) then [p]
        else [p] + WalkRequests(page, p + 1, left - 1)
  }

  datatype Failure = RequestFailed

  /** The items of the filtered request, when it answered with some. */
  function FirstItems(first: Reply): seq<Json>
  {
    if first.Returned? then ItemsOf(first.body) else []
  }

  /** apiReadingsRange as a function of the server's answers. */
  function RangeSpec(first: Reply, page: nat -> Reply, maxPages: int, start: Time, end: Time,
                     normalize: Json -> HistoryItem): Result<seq<HistoryItem>, Failure>
  {
    var items := FirstItems(first);
    if items != [] then Ok(SortByTs(Window(Normalized(items, normalize), start, end)))
    else match Walk(page, 1, maxPages, start, end, normalize)
      case Err(e) => Err(e)
      case Ok(points) => Ok(SortByTs(points))
  }

  // ------------------------------------------------------------ the procedure

  /** apiReadingsRange. Besides the readings it returns the page numbers the
      unfiltered walk requested (none when the filtered request answered). */
  method ReadingsRange(first: Reply, page: nat -> Reply, maxPages: int, start: Time, end: Time,
                       normalize: Json -> HistoryItem)
    returns (out: Result<seq<HistoryItem>, Failure>, requested: seq<nat>)
    ensures out == RangeSpec(first, page, maxPages, start, end, normalize)
    ensures FirstItems(first) != [] ==> requested == []
    ensures FirstItems(first) == [] ==> requested == WalkRequests(page, 1, maxPages)
  {
    var items := FirstItems(first);
    if items != [] {
      var pts := Window(Normalized(items, normalize), start, end);
      return Ok(SortByTs(pts)), [];
    }
    var walked;
    walked, requested := WalkPages(page, maxPages, start, end, normalize);
    match walked
    case Err(e) => out := Err(e);
    case Ok(points) => out := Ok(SortByTs(points));
  }

  /** The fallback loop of apiReadingsRange: pages 1, 2, … up to `maxPages`. */
  method WalkPages(page: nat -> Reply, maxPages: int, start: Time, end: Time,
                   normalize: Json -> HistoryItem)
    returns (out: Result<seq<HistoryItem>, Failure>, requested: seq<nat>)
    ensures out == Walk(page, 1, maxPages, start, end, normalize)
    ensures requested == WalkRequests(page, 1, maxPages)
  {
    var points: seq<HistoryItem> := [];
    var p: nat := 1;
    var pages := 0;
    ghost var left := maxPages;
    requested := [];
    PrependNothing(Walk(page, p, maxPages, start, end, normalize));
    while pages < maxPages
      invariant p == pages + 1 && 0 <= pages && left == maxPages - pages
      invariant requested + WalkRequests(page, p, left) == WalkRequests(page, 1, maxPages)
      invariant Walk(page, 1, maxPages, start, end, normalize)
             == Prepend(points, Walk(page, p, left, start, end, normalize))
      decreases maxPages - pages
    {
      var reply := page(p);
      if reply.Threw? {
        WalkThrew(page, p, left, start, end, normalize, points, requested);
        return Err(RequestFailed), requested + [p];
      }
      var res := reply.body;
      if ItemsOf(res) == [] {
        WalkEmpty(page, p, left, start, end, normalize, points, requested);
        return Ok(points), requested + [p];
      }
      var chunk := PageChunk(res, start, end, normalize);
      if LastPage(res) {
        WalkLast(page, p, left, start, end, normalize, points, requested);
        return Ok(points + chunk), requested + [p];
      }
      WalkNext(page, p, left, start, end, normalize, points, requested);
      requested := requested + [p];
      points := points + chunk;
      p := p + 1;
      pages := pages + 1;
      left := left - 1;
    }
    assert points + [] == points;
    out := Ok(points);
  }

  lemma WalkThrew(page: nat -> Reply, p: nat, left: int, start: Time, end: Time,
                  normalize: Json -> HistoryItem, points: seq<HistoryItem>, requested: seq<nat>)
    requires left > 0 && page(p).Threw?
    ensures Prepend(points, Walk(page, p, left, start, end, normalize)) == Err(RequestFailed)
    ensures requested + WalkRequests(page, p, left) == requested + [p]
  {
  }

  lemma WalkEmpty(page: nat -> Reply, p: nat, left: int, start: Time, end: Time,
                  normalize: Json -> HistoryItem, points: seq<HistoryItem>, requested: seq<nat>)
    requires left > 0 && page(p).Returned? && ItemsOf(page(p).body) == []
    ensures Prepend(points, Walk(page, p, left, start, end, normalize)) == Ok(points)
    ensures requested + WalkRequests(page, p, left) == requested + [p]
  {
    assert points + [] == points;
  }

  lemma WalkLast(page: nat -> Reply, p: nat, left: int, start: Time, end: Time,
                 normalize: Json -> HistoryItem, points: seq<HistoryItem>, requested: seq<nat>)
    requires left > 0 && page(p).Returned? && ItemsOf(page(p).body) != [] && LastPage(page(p).body)
    ensures Prepend(points, Walk(page, p, left, start, end, normalize))
         == Ok(points + PageChunk(page(p).body, start, end, normalize))
    ensures requested + WalkRequests(page, p, left) == requested + [p]
  {
  }

  /** One non-empty page that is not the last: its window's readings, then
      the rest of the walk. */
  lemma WalkNext(page: nat -> Reply, p: nat, left: int, start: Time, end: Time,
                 normalize: Json -> HistoryItem, points: seq<HistoryItem>, requested: seq<nat>)
    requires left > 0 && page(p).Returned? && ItemsOf(page(p).body) != [] && !LastPage(page(p).body)
    ensures Prepend(points, Walk(page, p, left, start, end, normalize))
         == Prepend(points + PageChunk(page(p).body, start, end, normalize),
                    Walk(page, p + 1, left - 1, start, end, normalize))
    ensures requested + WalkRequests(page, p, left) == (requested + [p]) + WalkRequests(page, p + 1, left - 1)
  {
    PrependConcat(points, PageChunk(page(p).body, start, end, normalize), Walk(page, p + 1, left - 1, start, end, normalize));
    assert requested + ([p] + WalkRequests(page, p + 1, left - 1)) == (requested + [p]) + WalkRequests(page, p + 1, left - 1);
  }

  /** `points` followed by the outcome of the rest of the walk. */
  function Prepend(points: seq<HistoryItem>, r: Result<seq<HistoryItem>, Failure>): Result<seq<HistoryItem>, Failure>
  {
    match r
    case Ok(more) => Ok(points + more)
    case Err(e) => Err(e)
  }

  lemma PrependNothing(r: Result<seq<HistoryItem>, Failure>)
    ensures Prepend([], r) == r
  {
    if r.Ok? {
      assert [] + r.value == r.value;
    }
  }

  lemma PrependConcat(a: seq<HistoryItem>, b: seq<HistoryItem>, r: Result<seq<HistoryItem>, Failure>)
    ensures Prepend(a, Prepend(b, r)) == Prepend(a + b, r)
  {
    if r.Ok? {
      assert a + (b + r.value) == (a + b) + r.value;
    }
  }

  // ------------------------------------------------------------ properties

  lemma {:induction false} WalkInWindow(page: nat -> Reply, p: nat, left: int, start: Time, end: Time,
                                        normalize: Json -> HistoryItem)
    ensures var r := Walk(page, p, left, start, end, normalize);
            r.Ok? ==> forall h :: h in r.value ==> InWindow(h.ts, start, end)
    decreases if left > 0 then left else 0
  {
    if left > 0 && page(p).Returned? && ItemsOf(page(p).body) != [] {
      WindowMembers(Normalized(ItemsOf(page(p).body), normalize), start, end);
      if !LastPage(page(p).body) {
        WalkInWindow(page, p + 1, left - 1, start, end, normalize);
      }
    }
  }

  /** Whichever way they were fetched, the readings returned lie in
      [start, end) and are in ascending time order. */
  lemma RangeInWindowSorted(first: Reply, page: nat -> Reply, maxPages: int, start: Time, end: Time,
                            normalize: Json -> HistoryItem)
    ensures var r := RangeSpec(first, page, maxPages, start, end, normalize);
            r.Ok? ==> SortedByTs(r.value) && forall h :: h in r.value ==> InWindow(h.ts, start, end)
  {
    var r := RangeSpec(first, page, maxPages, start, end, normalize);
    if r.Ok? {
      var pre := if FirstItems(first) != [] then Window(Normalized(FirstItems(first), normalize), start, end)
                 else Walk(page, 1, maxPages, start, end, normalize).value;
      WalkInWindow(page, 1, maxPages, start, end, normalize);
      WindowMembers(Normalized(FirstItems(first), normalize), start, end);
      assert multiset(r.value) == multiset(pre);
      forall h | h in r.value ensures InWindow(h.ts, start, end) {
        assert h in multiset(r.value);
        assert h in multiset(pre);
      }
    }
  }

  /** A filtered request that answers with items decides the result, even if
      none of them is in the window; otherwise (failure or no items) the
      result is the unfiltered walk's. */
  lemma FirstAnswerDecides(first: Reply, page: nat -> Reply, maxPages: int, start: Time, end: Time,
                           normalize: Json -> HistoryItem)
    ensures FirstItems(first) != [] ==>
      RangeSpec(first, page, maxPages, start, end, normalize)
        == Ok(SortByTs(Window(Normalized(FirstItems(first), normalize), start, end)))
    ensures first.Threw? ==>
      RangeSpec(first, page, maxPages, start, end, normalize)
        == RangeSpec(Returned(Arr([])), page, maxPages, start, end, normalize)
  {
  }

  /** The walk requests pages 1, 2, … in order, never more than `maxPages`
      of them and none at all when `maxPages` is not positive. */
  lemma {:induction false} WalkRequestBound(page: nat -> Reply, p: nat, left: int)
    ensures |WalkRequests(page, p, left)| <= (if left > 0 then left else 0)
    ensures forall i :: 0 <= i < |WalkRequests(page, p, left)| ==> WalkRequests(page, p, left)[i] == p + i
    decreases if left > 0 then left else 0
  {
    if left > 0 && page(p).Returned? && ItemsOf(page(p).body) != [] && !LastPage(page(p).body) {
      WalkRequestBound(page, p + 1, left - 1);
    }
  }

  /** The walk stops at the first empty page: nothing after it is requested. */
  lemma {:induction false} WalkStopsAtEmptyPage(page: nat -> Reply, p: nat, left: int, q: nat)
    requires p <= q < p + left
    requires page(q).Returned? && ItemsOf(page(q).body) == []
    ensures forall i :: 0 <= i < |WalkRequests(page, p, left)| ==> WalkRequests(page, p, left)[i] <= q
    decreases left
  {
    if p < q {
      match page(p)
      case Threw =>
      case Returned(res) =>
        if ItemsOf(res) != [] && !LastPage(res) {
          WalkStopsAtEmptyPage(page, p + 1, left - 1, q);
        }
    }
  }
  /** After a page whose `meta.hasNext` is `false` no further page is
      requested. */
  lemma {:induction false} WalkStopsAtLastPage(page: nat -> Reply, p: nat, left: int, q: nat)
    requires p <= q < p + left
    requires page(q).Returned? && LastPage(page(q).body)
    ensures forall i :: 0 <= i < |WalkRequests(page, p, left)| ==> WalkRequests(page, p, left)[i] <= q
    decreases left
  {
    if p < q {
      match page(p)
      case Threw =>
      case Returned(res) =>
        if ItemsOf(res) != [] && !LastPage(res) {
          WalkStopsAtLastPage(page, p + 1, left - 1, q);
        }
    }
  }


  /** Sorting leaves an already sorted sequence as it is. */
  lemma {:induction false} SortSorted(s: seq<HistoryItem>)
    requires SortedByTs(s)
    ensures SortByTs(s) == s
  {
    if s != [] {
      var init := s[..|s| - 1];
      assert SortedByTs(init);
      SortSorted(init);
      InsertLast(s[|s| - 1], init);
      assert init + [s[|s| - 1]] == s;
    }
  }

  lemma {:induction false} InsertLast(x: HistoryItem, s: seq<HistoryItem>)
    requires SortedByTs(s)
    requires forall i :: 0 <= i < |s| ==> Key(s[i]) <= Key(x)
    ensures Insert(x, s) == s + [x]
  {
    if s != [] {
      InsertLast(x, s[1..]);
      assert [s[0]] + (s[1..] + [x]) == s + [x];
    }
  }
}
