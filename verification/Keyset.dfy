/**
 * Keyset pagination: fetch one row more than the limit past a cursor, report whether there is
 * more, and hand out the last row's key as the next cursor.
 */
module Keyset {
  import opened Prelude
  import opened Sorting
  import opened Filters
  import opened Cursor

  const DEFAULT_PAGE_SIZE: nat := 50
  const MAX_PAGE_SIZE: nat := 100

  datatype ListError = BadLimit(limit: int) | BadCursor(error: CursorError)

  function ClampLimit(limit: Option<int>): (r: Result<nat, ListError>)
    ensures r.Ok? ==> 1 <= r.value <= MAX_PAGE_SIZE
  {
    match limit
    case None => Ok(DEFAULT_PAGE_SIZE)
    case Some(n) => if n < 1 then Err(BadLimit(n)) else Ok(if n < MAX_PAGE_SIZE then n else MAX_PAGE_SIZE)
  }

  /**
   * A list tool: `before` is its ORDER BY, `after` its WHERE condition on a cursor key, and
   * `enc`/`dec` its cursor codec.
   */
  datatype Listing<!R, !K> = Listing(
    before: (R, R) -> bool, key: R -> K, after: (K, R) -> bool,
    enc: K -> string, dec: Option<string> -> Result<Option<K>, CursorError>)

  datatype Page<R> = Page(items: seq<R>, hasMore: bool, next: Option<string>)

  /** `SELECT … WHERE admits ORDER BY before LIMIT limit`. */
  function Select<R>(admits: R -> bool, before: (R, R) -> bool, rows: seq<R>, limit: nat): seq<R> {
    Take(limit, Sort(before, Filter(admits, rows)))
  }

  lemma SelectPermuted<R(!new)>(admits: R -> bool, before: (R, R) -> bool, a: seq<R>, b: seq<R>, limit: nat)
    requires WeakOrder(before) && Separates(before, b) && multiset(a) == multiset(b)
    ensures Select(admits, before, a, limit) == Select(admits, before, b, limit)
  {
    FilterPermutes(admits, a, b);
    FilterMembers(admits, b);
    SortForgetsOrder(before, Filter(admits, b), Filter(admits, a));
  }

  lemma SelectAgrees<R>(p: R -> bool, q: R -> bool, before: (R, R) -> bool, rows: seq<R>, limit: nat)
    requires forall r :: r in rows ==> p(r) == q(r)
    ensures Select(p, before, rows, limit) == Select(q, before, rows, limit)
  {
    FilterAgree(p, q, rows);
  }

  predicate Beyond<R, K>(l: Listing<R, K>, k: Option<K>, r: R) {
    k.None? || l.after(k.value, r)
  }

  /** The shape of every list tool: check the limit, decode the cursor, answer from its key. */
  function Respond<R, K>(
      limit: Option<int>, decoded: Result<Option<K>, CursorError>,
      answer: (Option<K>, nat) -> Page<R>): Result<Page<R>, ListError>
  {
    match ClampLimit(limit)
    case Err(e) => Err(e)
    case Ok(n) =>
      match decoded
      case Err(e) => Err(BadCursor(e))
      case Ok(k) => Ok(answer(k, n))
  }

  function PageOf<R, K>(l: Listing<R, K>, fetched: seq<R>, limit: nat): Page<R> {
    var items := Take(limit, fetched);
    Page(items, |fetched| > limit,
         if |fetched| > limit && items != [] then Some(l.enc(l.key(items[|items| - 1]))) else None)
  }

  function PageBeyond<R, K>(l: Listing<R, K>, rows: seq<R>, k: Option<K>, n: nat): Page<R> {
    PageOf(l, Select(r => Beyond(l, k, r), l.before, rows, n + 1), n)
  }

  /** One request over the rows the caller may see. */
  function Fetch<R, K>(
      l: Listing<R, K>, rows: seq<R>, limit: Option<int>, cursor: Option<string>): Result<Page<R>, ListError>
  {
    Respond(limit, l.dec(cursor), (k, n) => PageBeyond(l, rows, k, n))
  }

  /** What a listing must promise over the rows of its catalog. */
  ghost predicate Sound<R(!new), K>(l: Listing<R, K>, rows: seq<R>) {
    && WeakOrder(l.before) && Separates(l.before, rows) && Distinct(rows)
    && (forall c, r :: c in rows && r in rows ==> (l.after(l.key(c), r) <==> l.before(c, r)))
    && l.dec(None) == Ok(None)
    && (forall r :: r in rows ==> l.dec(Some(l.enc(l.key(r)))) == Ok(Some(l.key(r))))
  }

  // ---- One request is one slice ----

  lemma SuffixOfSorted<T>(before: (T, T) -> bool, xs: seq<T>, i: nat)
    requires i <= |xs| && Sorted(before, xs) && Separates(before, xs)
    ensures Sorted(before, xs[i..]) && Separates(before, xs[i..])
  {
    assert forall x :: x in xs[i..] ==> x in xs;
  }

  /** What a filter leaves of the sorted rows is what sorting leaves of the filtered ones. */
  lemma SortFiltered<T(!new)>(before: (T, T) -> bool, p: T -> bool, xs: seq<T>, i: nat)
    requires WeakOrder(before) && Separates(before, xs)
    requires i <= |Sort(before, xs)| && Filter(p, Sort(before, xs)) == Sort(before, xs)[i..]
    ensures Sort(before, Filter(p, xs)) == Sort(before, xs)[i..]
  {
    var sorted, picked := Sort(before, xs), Filter(p, xs);
    SortMembers(before, xs);
    SortSorts(before, xs);
    SortSorts(before, picked);
    SortPermutes(before, xs);
    SortPermutes(before, picked);
    FilterPermutes(p, xs, sorted);
    SuffixOfSorted(before, sorted, i);
    SortedIsUnique(before, sorted[i..], Sort(before, picked));
  }

  /** The key of the row before position `i` of the sorted rows. */
  function KeyAt<R, K>(l: Listing<R, K>, rows: seq<R>, i: nat): Option<K>
    requires i <= |Sort(l.before, rows)|
  {
    if i == 0 then None else Some(l.key(Sort(l.before, rows)[i - 1]))
  }

  /** The cursor that stands there. */
  function CursorAt<R, K>(l: Listing<R, K>, rows: seq<R>, i: nat): Option<string>
    requires i <= |Sort(l.before, rows)|
  {
    if i == 0 then None else Some(l.enc(l.key(Sort(l.before, rows)[i - 1])))
  }

  lemma CursorDecodes<R(!new), K>(l: Listing<R, K>, rows: seq<R>, i: nat)
    requires Sound(l, rows) && i <= |Sort(l.before, rows)|
    ensures l.dec(CursorAt(l, rows, i)) == Ok(KeyAt(l, rows, i))
  {
    SortMembers(l.before, rows);
    assert i > 0 ==> Sort(l.before, rows)[i - 1] in rows;
  }

  lemma BeyondIsSuffix<R(!new), K>(l: Listing<R, K>, rows: seq<R>, i: nat)
    requires Sound(l, rows) && i <= |Sort(l.before, rows)|
    ensures Sort(l.before, Filter(r => Beyond(l, KeyAt(l, rows, i), r), rows)) == Sort(l.before, rows)[i..]
  {
    var sorted := Sort(l.before, rows);
    var p := r => Beyond(l, KeyAt(l, rows, i), r);
    SortSorts(l.before, rows);
    SortMembers(l.before, rows);
    SortDistinct(l.before, rows);
    if i > 0 {
      forall j | 0 <= j < |sorted|
        ensures p(sorted[j]) <==> j >= i
      {
        assert sorted[i - 1] in rows && sorted[j] in rows;
        assert p(sorted[j]) <==> l.before(sorted[i - 1], sorted[j]);
      }
    }
    FilterSuffix(p, sorted, i);
    SortFiltered(l.before, p, rows, i);
  }

  /** The page at position `i`: the next `n` rows, and a cursor exactly when rows remain. */
  function PageAt<R, K>(l: Listing<R, K>, rows: seq<R>, i: nat, n: nat): Page<R>
    requires i <= |Sort(l.before, rows)| && n >= 1
  {
    var sorted := Sort(l.before, rows);
    if i + n < |sorted| then Page(sorted[i..i + n], true, CursorAt(l, rows, i + n))
    else Page(sorted[i..], false, None)
  }

  lemma SliceIsPage<R, K>(l: Listing<R, K>, rows: seq<R>, i: nat, n: nat)
    requires i <= |Sort(l.before, rows)| && n >= 1
    ensures PageOf(l, Take(n + 1, Sort(l.before, rows)[i..]), n) == PageAt(l, rows, i, n)
  {
    var sorted := Sort(l.before, rows);
    var fetched := Take(n + 1, sorted[i..]);
    if i + n < |sorted| {
      assert Take(n, fetched) == sorted[i..i + n];
    } else {
      assert Take(n, fetched) == sorted[i..];
    }
  }

  lemma PageBeyondIsPageAt<R(!new), K>(l: Listing<R, K>, rows: seq<R>, i: nat, n: nat)
    requires Sound(l, rows) && i <= |Sort(l.before, rows)| && n >= 1
    ensures PageBeyond(l, rows, KeyAt(l, rows, i), n) == PageAt(l, rows, i, n)
  {
    BeyondIsSuffix(l, rows, i);
    SliceIsPage(l, rows, i, n);
  }

  lemma FetchIsPageAt<R(!new), K>(l: Listing<R, K>, rows: seq<R>, i: nat, limit: Option<int>)
    requires Sound(l, rows) && i <= |Sort(l.before, rows)| && ClampLimit(limit).Ok?
    ensures Fetch(l, rows, limit, CursorAt(l, rows, i)) == Ok(PageAt(l, rows, i, ClampLimit(limit).value))
  {
    CursorDecodes(l, rows, i);
    PageBeyondIsPageAt(l, rows, i, ClampLimit(limit).value);
  }

  // ---- Following the cursors ----

  /** A list tool as its callers see it: a limit and a cursor in, a page or an error out. */
  type Endpoint<R> = (Option<int>, Option<string>) -> Result<Page<R>, ListError>

  ghost predicate Serves<R, K>(ask: Endpoint<R>, l: Listing<R, K>, rows: seq<R>) {
    forall limit, cursor :: ask(limit, cursor) == Fetch(l, rows, limit, cursor)
  }

  /** A client that asks for pages, with limits of its choice, until there is no more. */
  ghost predicate Follows<R>(ask: Endpoint<R>, cursor: Option<string>, limits: seq<Option<int>>, pages: seq<Page<R>>)
    decreases |pages|
  {
    && pages != [] && |limits| == |pages|
    && ask(limits[0], cursor) == Ok(pages[0])
    && if pages[0].hasMore then Follows(ask, pages[0].next, limits[1..], pages[1..]) else |pages| == 1
  }

  function Items<R>(pages: seq<Page<R>>): seq<R> {
    if pages == [] then [] else pages[0].items + Items(pages[1..])
  }

  function PageCount(total: nat, n: nat): nat
    requires n >= 1
  {
    if total <= n then 1 else 1 + PageCount(total - n, n)
  }

  /** `pages` is max(1, ceil(total / n)): one page for nothing, otherwise just enough. */
  ghost predicate JustEnough(pages: nat, total: nat, n: nat) {
    if total == 0 then pages == 1 else (pages - 1) * n < total <= pages * n
  }

  lemma {:induction false} PageCountIsJustEnough(total: nat, n: nat)
    requires n >= 1
    ensures JustEnough(PageCount(total, n), total, n)
  {
    if total > n {
      var pages := PageCount(total - n, n);
      PageCountIsJustEnough(total - n, n);
      assert (pages + 1) * n == pages * n + n;
      assert pages * n == (pages - 1) * n + n;
    }
  }

  /** One step of a client standing at position `i`. */
  lemma FollowStep<R(!new), K>(
      ask: Endpoint<R>, l: Listing<R, K>, rows: seq<R>, i: nat, limits: seq<Option<int>>, pages: seq<Page<R>>)
    requires Serves(ask, l, rows) && Sound(l, rows) && i <= |Sort(l.before, rows)|
    requires Follows(ask, CursorAt(l, rows, i), limits, pages)
    ensures pages != [] && |limits| == |pages| && ClampLimit(limits[0]).Ok?
    ensures
      var sorted, n := Sort(l.before, rows), ClampLimit(limits[0]).value;
      if i + n < |sorted|
      then
        && pages[0].items == sorted[i..i + n]
        && Follows(ask, CursorAt(l, rows, i + n), limits[1..], pages[1..])
      else pages[0].items == sorted[i..] && |pages| == 1
  {
    assert ask(limits[0], CursorAt(l, rows, i)) == Fetch(l, rows, limits[0], CursorAt(l, rows, i));
    FetchIsPageAt(l, rows, i, limits[0]);
  }

  /** The pages cut `sorted` into slices from position `i` on. */
  ghost predicate Slices<R>(sorted: seq<R>, i: nat, limits: seq<Option<int>>, pages: seq<Page<R>>)
    requires i <= |sorted|
    decreases |pages|
  {
    && pages != [] && |limits| == |pages| && ClampLimit(limits[0]).Ok?
    && var n := ClampLimit(limits[0]).value;
       if i + n < |sorted|
       then pages[0].items == sorted[i..i + n] && Slices(sorted, i + n, limits[1..], pages[1..])
       else pages[0].items == sorted[i..] && |pages| == 1
  }

  lemma {:induction false} FollowsSlices<R(!new), K>(
      ask: Endpoint<R>, l: Listing<R, K>, rows: seq<R>, i: nat, limits: seq<Option<int>>, pages: seq<Page<R>>)
    requires Serves(ask, l, rows) && Sound(l, rows) && i <= |Sort(l.before, rows)|
    requires Follows(ask, CursorAt(l, rows, i), limits, pages)
    ensures Slices(Sort(l.before, rows), i, limits, pages)
    decreases |pages|
  {
    FollowStep(ask, l, rows, i, limits, pages);
    var sorted, n := Sort(l.before, rows), ClampLimit(limits[0]).value;
    if i + n < |sorted| {
      FollowsSlices(ask, l, rows, i + n, limits[1..], pages[1..]);
    }
    OneMoreSlice(sorted, i, limits, pages, n);
  }

  lemma OneMoreSlice<R>(sorted: seq<R>, i: nat, limits: seq<Option<int>>, pages: seq<Page<R>>, n: nat)
    requires i <= |sorted| && pages != [] && |limits| == |pages| && ClampLimit(limits[0]) == Ok(n)
    requires
      if i + n < |sorted|
      then pages[0].items == sorted[i..i + n] && Slices(sorted, i + n, limits[1..], pages[1..])
      else pages[0].items == sorted[i..] && |pages| == 1
    ensures Slices(sorted, i, limits, pages)
  {}

  lemma TwoSlices<R>(a: seq<R>, b: seq<R>, xs: seq<R>, i: nat, j: nat)
    requires i <= j <= |xs| && a == xs[i..j] && b == xs[j..]
    ensures a + b == xs[i..]
  {}

  lemma LastItems<R>(pages: seq<Page<R>>)
    requires |pages| == 1
    ensures Items(pages) == pages[0].items
  {
    assert Items(pages[1..]) == [];
  }

  lemma {:induction false} SliceItems<R>(sorted: seq<R>, i: nat, limits: seq<Option<int>>, pages: seq<Page<R>>)
    requires i <= |sorted| && Slices(sorted, i, limits, pages)
    ensures Items(pages) == sorted[i..]
    decreases |pages|
  {
    var n := ClampLimit(limits[0]).value;
    if i + n < |sorted| {
      SliceItems(sorted, i + n, limits[1..], pages[1..]);
      TwoSlices(pages[0].items, Items(pages[1..]), sorted, i, i + n);
    } else {
      LastItems(pages);
    }
  }

  /** The page size a limit stands for: 50 when absent, itself up to 100, then 100. */
  predicate Asks(limit: Option<int>, n: nat) {
    match limit
    case None => n == 50
    case Some(m) => (1 <= m <= 100 && n == m) || (m > 100 && n == 100)
  }

  ghost predicate AllOf(limits: seq<Option<int>>, n: nat) {
    forall j :: 0 <= j < |limits| ==> Asks(limits[j], n)
  }

  lemma AsksExact(limit: Option<int>, n: nat)
    ensures Asks(limit, n) <==> ClampLimit(limit) == Ok(n)
    ensures ClampLimit(limit).Err? <==> limit.Some? && limit.value < 1
  {}

  lemma TailOf(limits: seq<Option<int>>, n: nat)
    requires AllOf(limits, n) && limits != []
    ensures ClampLimit(limits[0]) == Ok(n) && AllOf(limits[1..], n)
  {
    AsksExact(limits[0], n);
  }

  /**
   * A page asked for at any place of the traversal: a limit below 1 is refused, and else the page holds the
   * next `n` rows, or what is left of them, and hands out a cursor exactly when more remain.
   */
  lemma PageSizes<R(!new), K>(
      ask: Endpoint<R>, l: Listing<R, K>, rows: seq<R>, i: nat, limit: Option<int>, n: nat)
    requires Serves(ask, l, rows) && Sound(l, rows) && i <= |Sort(l.before, rows)|
    ensures
      limit.Some? && limit.value < 1 ==>
        forall cursor :: ask(limit, cursor) == Err(BadLimit(limit.value))
    ensures
      Asks(limit, n) ==>
        forall cursor :: l.dec(cursor).Err? ==> ask(limit, cursor) == Err(BadCursor(l.dec(cursor).error))
    ensures
      Asks(limit, n) ==>
        var page := ask(limit, CursorAt(l, rows, i));
        && page.Ok?
        && |page.value.items| == (if n <= |rows| - i then n else |rows| - i)
        && page.value.items <= Sort(l.before, rows)[i..]
        && (page.value.hasMore <==> n < |rows| - i)
        && (page.value.next.Some? <==> n < |rows| - i)
  {
    AsksExact(limit, n);
    SortMembers(l.before, rows);
    if Asks(limit, n) {
      FetchIsPageAt(l, rows, i, limit);
      forall cursor | l.dec(cursor).Err? ensures ask(limit, cursor) == Err(BadCursor(l.dec(cursor).error)) {
        assert ask(limit, cursor) == Fetch(l, rows, limit, cursor);
      }
      assert ask(limit, CursorAt(l, rows, i)) == Fetch(l, rows, limit, CursorAt(l, rows, i));
    }
    if limit.Some? && limit.value < 1 {
      forall cursor ensures ask(limit, cursor) == Err(BadLimit(limit.value)) {
        assert ask(limit, cursor) == Fetch(l, rows, limit, cursor);
      }
    }
  }

  lemma {:induction false} SliceCount<R>(sorted: seq<R>, i: nat, limits: seq<Option<int>>, pages: seq<Page<R>>, n: nat)
    requires i <= |sorted| && Slices(sorted, i, limits, pages) && AllOf(limits, n)
    ensures n >= 1 && |pages| == PageCount(|sorted| - i, n)
    decreases |pages|
  {
    TailOf(limits, n);
    if i + n < |sorted| {
      SliceCount(sorted, i + n, limits[1..], pages[1..], n);
    }
  }

  /**
   * Over an unchanged catalog, following the cursors from the first page to the last yields every
   * row exactly once, in the stated order, whatever limits the client picks.
   */
  lemma TraversalIsComplete<R(!new), K>(
      ask: Endpoint<R>, l: Listing<R, K>, rows: seq<R>, limits: seq<Option<int>>, pages: seq<Page<R>>)
    requires Serves(ask, l, rows) && Sound(l, rows) && Follows(ask, None, limits, pages)
    ensures Sorted(l.before, Items(pages)) && multiset(Items(pages)) == multiset(rows) && Distinct(Items(pages))
  {
    FollowsSlices(ask, l, rows, 0, limits, pages);
    SliceItems(Sort(l.before, rows), 0, limits, pages);
    assert Sort(l.before, rows)[0..] == Sort(l.before, rows);
    SortSorts(l.before, rows);
    SortPermutes(l.before, rows);
    SortDistinct(l.before, rows);
  }

  /** With one fixed limit the traversal takes max(1, ceil(total / limit)) pages. */
  lemma TraversalLength<R(!new), K>(
      ask: Endpoint<R>, l: Listing<R, K>, rows: seq<R>, limits: seq<Option<int>>, pages: seq<Page<R>>, n: nat)
    requires Serves(ask, l, rows) && Sound(l, rows) && Follows(ask, None, limits, pages) && AllOf(limits, n)
    ensures JustEnough(|pages|, |rows|, n)
  {
    FollowsSlices(ask, l, rows, 0, limits, pages);
    SliceCount(Sort(l.before, rows), 0, limits, pages, n);
    SortMembers(l.before, rows);
    PageCountIsJustEnough(|rows|, n);
  }

  /** Such a traversal always exists: no cursor the service hands out is refused. */
  lemma {:induction false} TraversalExists<R(!new), K>(
      ask: Endpoint<R>, l: Listing<R, K>, rows: seq<R>, i: nat, limit: Option<int>)
    returns (limits: seq<Option<int>>, pages: seq<Page<R>>)
    requires Serves(ask, l, rows) && Sound(l, rows) && i <= |Sort(l.before, rows)| && ClampLimit(limit).Ok?
    ensures Follows(ask, CursorAt(l, rows, i), limits, pages)
    ensures forall j :: 0 <= j < |limits| ==> limits[j] == limit
    decreases |Sort(l.before, rows)| - i
  {
    var n := ClampLimit(limit).value;
    var page := PageAt(l, rows, i, n);
    FetchIsPageAt(l, rows, i, limit);
    assert ask(limit, CursorAt(l, rows, i)) == Ok(page);
    limits, pages := [], [];
    if page.hasMore {
      limits, pages := TraversalExists(ask, l, rows, i + n, limit);
    }
    limits, pages := [limit] + limits, [page] + pages;
  }
}
