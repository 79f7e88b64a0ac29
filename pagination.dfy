/** The list endpoints' paging arithmetic (`PAGINATION` in the constants file):
    `page = parseInt(q.page) || 1`, `limit = Math.min(parseInt(q.limit) || 10, 1000)`,
    `skip = (page - 1) * limit`, `total_pages = Math.ceil(total / limit)`, and the
    window a MongoDB cursor returns for `.skip(s).limit(l)`. */
module Pagination {
  import opened Common

  const DefaultPage: int := 1
  const DefaultLimit: int := 10
  const MaxLimit: int := 1000

  /** `parseInt(x) || d`: a missing or unparsable value (`NaN`) and `0` are falsy and
      give the default; any other parsed integer, negative ones included, is kept. */
  function OrDefault(parsed: Option<int>, d: int): (r: int)
    ensures parsed.Some? && parsed.value != 0 ==> r == parsed.value
    ensures parsed.None? || parsed.value == 0 ==> r == d
  {
    if parsed.Some? && parsed.value != 0 then parsed.value else d
  }

  function Page(parsed: Option<int>): (r: int)
    ensures r != 0
  {
    OrDefault(parsed, DefaultPage)
  }

  /** The page size: never 0 and never above 1000; a negative request stays negative. */
  function Limit(parsed: Option<int>): (r: int)
    ensures r != 0 && r <= MaxLimit
    ensures parsed.Some? && 0 < parsed.value <= MaxLimit ==> r == parsed.value
    ensures parsed.Some? && parsed.value > MaxLimit ==> r == MaxLimit
    ensures parsed.Some? && parsed.value < 0 ==> r == parsed.value
    ensures parsed.None? || parsed.value == 0 ==> r == DefaultLimit
  {
    var l := OrDefault(parsed, DefaultLimit);
    if l < MaxLimit then l else MaxLimit
  }

  /** `(page - 1) * limit`: the documents on the earlier pages. */
  function Skip(page: int, limit: int): (r: int)
    ensures page >= 1 && limit >= 0 ==> r >= 0
  {
    if page >= 1 && limit > 0 then
      MulMono(0, page - 1, limit);
      (page - 1) * limit
    else
      (page - 1) * limit
  }

  /** `Math.ceil(total / limit)`: the integer `r` with `r - 1 < total / limit <= r`,
      written without division for each sign of `limit`. */
  function TotalPages(total: nat, limit: int): (r: int)
    requires limit != 0
    ensures limit > 0 ==> (r - 1) * limit < total <= r * limit
    ensures limit < 0 ==> r * limit <= total < (r - 1) * limit
  {
    if limit > 0 then (total + limit - 1) / limit else -(total / -limit)
  }

  /** How many documents `.skip(skip).limit(limit)` yields out of `total`: those past
      the skip, cut to the absolute value of a non-zero limit. */
  function WindowSize(total: nat, skip: nat, limit: int): (r: nat)
    ensures r <= total
    ensures skip >= total ==> r == 0
    ensures limit == 0 && skip <= total ==> r == total - skip
    ensures limit != 0 && skip + (if limit < 0 then -limit else limit) <= total ==> r == (if limit < 0 then -limit else limit)
  {
    var s := if skip < total then skip else total;
    var n := if limit < 0 then -limit else limit;
    if limit == 0 || s + n >= total then total - s else n
  }

  /** `page` is exactly the window of `items` starting at `skip`: the documents at
      positions `skip`, `skip + 1`, ... in order, as many as `WindowSize` says. */
  ghost predicate IsWindowOf<T>(items: seq<T>, skip: int, limit: int, page: seq<T>) {
    skip >= 0 && |page| == WindowSize(|items|, skip, limit)
    && forall i :: 0 <= i < |page| ==> skip + i < |items| && page[i] == items[skip + i]
  }

  /** What `.skip(skip).limit(limit)` yields over the sorted matches: a negative skip
      is a server error; a limit of 0 means no limit; a negative limit returns at
      most its absolute value of documents. */
  function Window<T>(items: seq<T>, skip: int, limit: int): (r: Outcome<seq<T>>)
    ensures skip < 0 <==> r.Err?
    ensures r.Err? ==> r.code == ServerError
    ensures r.Ok? ==> var s := if skip < |items| then skip else |items|;
      var n := if limit < 0 then -limit else limit;
      r.value <= items[s..] && (limit == 0 || |r.value| <= n)
      && (|r.value| == |items| - s || |r.value| == n)
    ensures r.Ok? ==> IsWindowOf(items, skip, limit, r.value)
  {
    if skip < 0 then Err(ServerError)
    else
      var s := if skip < |items| then skip else |items|;
      var n := if limit < 0 then -limit else limit;
      if limit == 0 || s + n >= |items| then Ok(items[s..]) else Ok(items[s..s + n])
  }

  /** A successful window is a run of consecutive items. */
  lemma WindowSlice<T>(items: seq<T>, skip: int, limit: int)
    ensures var w := Window(items, skip, limit);
      w.Ok? ==> skip >= 0 && forall i :: 0 <= i < |w.value| ==> skip + i < |items| && w.value[i] == items[skip + i]
  {
  }

  /** With a positive limit, the item at index `i` is on page `i / limit + 1`, which
      is a page `total_pages` counts. */
  lemma PageOfIndex<T>(items: seq<T>, limit: int, i: nat)
    requires limit > 0 && i < |items|
    ensures var p := i / limit + 1;
      1 <= p <= TotalPages(|items|, limit)
      && Window(items, Skip(p, limit), limit).Ok?
      && i % limit < |Window(items, Skip(p, limit), limit).value|
      && Window(items, Skip(p, limit), limit).value[i % limit] == items[i]
  {
    var p := i / limit + 1;
    var t := TotalPages(|items|, limit);
    assert Skip(p, limit) == (i / limit) * limit;
    assert (i / limit) * limit + i % limit == i;
  }

  /** Pages past `total_pages` are empty. */
  lemma BeyondLastPage<T>(items: seq<T>, limit: int, p: int)
    requires limit > 0 && p > TotalPages(|items|, limit)
    ensures Window(items, Skip(p, limit), limit) == Ok([])
  {
    var t := TotalPages(|items|, limit);
    MulMono(t, p - 1, limit);
  }

  lemma MulMono(a: int, b: int, c: int)
    requires a <= b && c > 0
    ensures a * c <= b * c
  {
  }
}
