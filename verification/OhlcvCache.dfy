/** The incremental price cache of src/openhamster/data/cache.py.

    Dates are day numbers; the ISO strings of the source compare the same way. A data frame is
    a map from dates to bars. The loader is a function of the requested range that may fail. */
module OhlcvCache {
  import opened Prelude

  type Date = int

  datatype Bar = Bar(open: real, high: real, low: real, close: real, volume: real)

  type Frame = map<Date, Bar>

  /** None stands for an exception or a `None` reply. */
  type Loader = (Date, Date) -> Option<Frame>

  const TOLERATED_GAP_DAYS := 3

  function Between(f: Frame, start: Date, end: Date): Frame {
    map d | d in f && start <= d <= end :: f[d]
  }

  lemma IsBetween(rows: Frame, f: Frame, start: Date, end: Date)
    requires forall d :: d in rows <==> d in f && start <= d <= end
    requires forall d | d in rows :: rows[d] == f[d]
    ensures rows == Between(f, start, end)
  {
    forall d
      ensures d in rows <==> d in Between(f, start, end)
    {
      assert d in rows <==> d in f && start <= d <= end;
    }
  }

  // ----- Bounds -----

  predicate IsEarliest(f: Frame, d: Date) {
    d in f && forall e | e in f :: d <= e
  }

  predicate IsLatest(f: Frame, d: Date) {
    d in f && forall e | e in f :: e <= d
  }

  function Earliest(f: Frame): (d: Date)
    requires f != map[]
    ensures IsEarliest(f, d)
  {
    BoundsExist(f);
    var d :| d in f && IsEarliest(f, d);
    assert forall e | e in f && IsEarliest(f, e) :: e == d;
    d
  }

  function Latest(f: Frame): (d: Date)
    requires f != map[]
    ensures IsLatest(f, d)
  {
    BoundsExist(f);
    var d :| d in f && IsLatest(f, d);
    assert forall e | e in f && IsLatest(f, e) :: e == d;
    d
  }

  lemma BoundsExist(f: Frame)
    requires f != map[]
    ensures exists d :: d in f && IsEarliest(f, d)
    ensures exists d :: d in f && IsLatest(f, d)
  {
    assert (forall d :: d !in f.Keys) ==> f == map[];
    var lo, hi := LeastAndGreatest(f.Keys);
    assert IsEarliest(f, lo) && IsLatest(f, hi);
  }

  lemma {:induction false} LeastAndGreatest(s: set<Date>) returns (lo: Date, hi: Date)
    requires s != {}
    ensures lo in s && hi in s && forall e | e in s :: lo <= e <= hi
    decreases |s|
  {
    assert (forall d :: d !in s) ==> s == {};
    var x :| x in s;
    lo, hi := x, x;
    if s != {x} {
      assert s == s - {x} + {x};
      lo, hi := LeastAndGreatest(s - {x});
      lo, hi := Min(lo, x), Max(hi, x);
    }
  }

  // ----- The rows of one symbol -----

  function Absorb(f: Frame, reply: Option<Frame>): Frame {
    if reply.None? then f else f + reply.value
  }

  function WithHead(f: Frame, start: Date, loader: Loader): Frame
    requires f != map[]
  {
    if Earliest(f) - start > TOLERATED_GAP_DAYS then Absorb(f, loader(start, Earliest(f) - 1)) else f
  }

  function WithTail(f: Frame, latest: Date, end: Date, loader: Loader): Frame {
    if end - latest > TOLERATED_GAP_DAYS then Absorb(f, loader(latest + 1, end)) else f
  }

  /** The cached rows after a request. */
  function Fetched(f: Frame, start: Date, end: Date, loader: Loader): Frame {
    if f == map[] then Absorb(f, loader(start, end))
    else WithTail(WithHead(f, start, loader), Latest(f), end, loader)
  }

  // ----- The table, keyed by symbol and date -----

  type Table = map<string, Frame>

  function RowsOf(t: Table, symbol: string): Frame {
    if symbol in t then t[symbol] else map[]
  }

  class Cache {
    var table: Table

    constructor ()
      ensures table == map[]
    {
      table := map[];
    }

    method GetRange(symbol: string, start: Date, end: Date) returns (rows: Frame)
      ensures forall d :: d in rows <==> d in RowsOf(table, symbol) && start <= d <= end
      ensures forall d | d in rows :: rows[d] == RowsOf(table, symbol)[d]
    {
      rows := Between(RowsOf(table, symbol), start, end);
    }

    method GetDateBounds(symbol: string) returns (earliest: Option<Date>, latest: Option<Date>)
      ensures earliest.None? <==> RowsOf(table, symbol) == map[]
      ensures latest.None? <==> RowsOf(table, symbol) == map[]
      ensures earliest.Some? ==> earliest.value == Earliest(RowsOf(table, symbol))
      ensures latest.Some? ==> latest.value == Latest(RowsOf(table, symbol))
    {
      var rows := RowsOf(table, symbol);
      if rows == map[] {
        return None, None;
      }
      return Some(Earliest(rows)), Some(Latest(rows));
    }

    method Upsert(symbol: string, rows: Frame)
      modifies this
      ensures RowsOf(table, symbol) == old(RowsOf(table, symbol)) + rows
      ensures forall other | other != symbol :: RowsOf(table, other) == old(RowsOf(table, other))
    {
      if rows == map[] {
        return;
      }
      table := table[symbol := RowsOf(table, symbol) + rows];
    }

    /** One guarded call of the loader. */
    method Load(symbol: string, start: Date, end: Date, loader: Loader)
      modifies this
      ensures RowsOf(table, symbol) == Absorb(old(RowsOf(table, symbol)), loader(start, end))
      ensures forall other | other != symbol :: RowsOf(table, other) == old(RowsOf(table, other))
    {
      var loaded := loader(start, end);
      if loaded.Some? && loaded.value != map[] {
        Upsert(symbol, loaded.value);
      }
    }

    /** The head and tail branches of `fetch_or_load`, on the bounds read before any load. */
    method Extend(symbol: string, start: Date, end: Date, earliest: Date, latest: Date, loader: Loader)
      requires IsEarliest(RowsOf(table, symbol), earliest) && IsLatest(RowsOf(table, symbol), latest)
      modifies this
      ensures RowsOf(table, symbol) == Fetched(old(RowsOf(table, symbol)), start, end, loader)
      ensures forall other | other != symbol :: RowsOf(table, other) == old(RowsOf(table, other))
    {
      ghost var before := RowsOf(table, symbol);
      assert earliest == Earliest(before) && latest == Latest(before);
      if start < earliest {
        var headGapDays := Max(0, earliest - start);
        var headEnd := earliest - 1;
        if start <= headEnd {
          if headGapDays > TOLERATED_GAP_DAYS {
            Load(symbol, start, headEnd, loader);
          }
        }
      }
      assert RowsOf(table, symbol) == WithHead(before, start, loader);
      if latest < end {
        var tailGapDays := Max(0, end - latest);
        var tailStart := latest + 1;
        if tailStart <= end && tailGapDays > TOLERATED_GAP_DAYS {
          Load(symbol, tailStart, end, loader);
        }
      }
    }

    method FetchOrLoad(symbol: string, start: Date, end: Date, loader: Loader) returns (result: Frame)
      modifies this
      ensures RowsOf(table, symbol) == Fetched(old(RowsOf(table, symbol)), start, end, loader)
      ensures forall other | other != symbol :: RowsOf(table, other) == old(RowsOf(table, other))
      ensures result == Between(RowsOf(table, symbol), start, end)
    {
      var cached := GetRange(symbol, start, end);
      var earliest, latest := GetDateBounds(symbol);
      if earliest.Some? && latest.Some? && earliest.value <= start && latest.value >= end && cached != map[] {
        IsBetween(cached, RowsOf(table, symbol), start, end);
        return cached;
      }
      if earliest.None? || latest.None? {
        Load(symbol, start, end, loader);
      } else {
        Extend(symbol, start, end, earliest.value, latest.value, loader);
      }
      result := GetRange(symbol, start, end);
      IsBetween(result, RowsOf(table, symbol), start, end);
    }
  }

  // ----- What a request loads -----

  function Answer(reply: Option<Frame>, d: Date, otherwise: Option<Bar>): Option<Bar> {
    if reply.Some? && d in reply.value then Some(reply.value[d]) else otherwise
  }

  function RowAt(f: Frame, d: Date): Option<Bar> {
    if d in f then Some(f[d]) else None
  }

  /** With nothing cached a request loads its whole range. Otherwise it loads what is missing before the
      first and after the last cached date, if that is more than three days; what is loaded replaces
      what is cached, and the tail the head. */
  lemma RequestLoads(f: Frame, start: Date, end: Date, loader: Loader, first: Date, last: Date, d: Date)
    requires f != map[] ==> IsEarliest(f, first) && IsLatest(f, last)
    ensures RowAt(Fetched(f, start, end, loader), d) ==
              if f == map[] then Answer(loader(start, end), d, None)
              else
                var head := if first - start > 3 then loader(start, first - 1) else None;
                var tail := if end - last > 3 then loader(last + 1, end) else None;
                Answer(tail, d, Answer(head, d, RowAt(f, d)))
  {
    if f != map[] {
      assert first == Earliest(f) && last == Latest(f);
    }
  }

  // ----- Agreement with the source -----

  /** The loader returns the source's rows of the range, or fails. */
  ghost predicate Serves(loader: Loader, source: Frame) {
    forall a, b :: loader(a, b).None? || loader(a, b).value == Between(source, a, b)
  }

  ghost predicate NeverFails(loader: Loader) {
    forall a, b :: loader(a, b).Some?
  }

  /** The cached rows are exactly the source's rows between the cached bounds. */
  ghost predicate Faithful(f: Frame, source: Frame) {
    f != map[] ==> f == Between(source, Earliest(f), Latest(f))
  }

  lemma FaithfulBetween(f: Frame, source: Frame, lo: Date, hi: Date)
    requires f == Between(source, lo, hi)
    ensures Faithful(f, source)
  {
  }

  lemma HeadBetween(f: Frame, source: Frame, start: Date, loader: Loader) returns (lo: Date)
    requires f != map[] && f == Between(source, Earliest(f), Latest(f)) && Serves(loader, source)
    ensures WithHead(f, start, loader) == Between(source, lo, Latest(f))
    ensures lo == Earliest(f) || (Earliest(f) - start > TOLERATED_GAP_DAYS && lo == start)
    ensures NeverFails(loader) && Earliest(f) - start > TOLERATED_GAP_DAYS ==> lo == start
  {
    lo := Earliest(f);
    if Earliest(f) - start > TOLERATED_GAP_DAYS && loader(start, Earliest(f) - 1).Some? {
      lo := start;
      assert Between(source, start, Earliest(f) - 1) + f == Between(source, start, Latest(f));
      assert f + Between(source, start, Earliest(f) - 1) == Between(source, start, Latest(f));
    }
  }

  lemma TailBetween(f: Frame, source: Frame, lo: Date, latest: Date, end: Date, loader: Loader) returns (hi: Date)
    requires f == Between(source, lo, latest) && lo <= latest + 1 && Serves(loader, source)
    ensures WithTail(f, latest, end, loader) == Between(source, lo, hi)
    ensures hi == latest || (end - latest > TOLERATED_GAP_DAYS && hi == end)
    ensures NeverFails(loader) && end - latest > TOLERATED_GAP_DAYS ==> hi == end
  {
    hi := latest;
    if end - latest > TOLERATED_GAP_DAYS && loader(latest + 1, end).Some? {
      hi := end;
      assert f + Between(source, latest + 1, end) == Between(source, lo, end);
    }
  }

  /** A head load ends where the cached rows begin, so no hole opens; likewise a tail load. */
  lemma FetchKeepsFaithful(f: Frame, source: Frame, start: Date, end: Date, loader: Loader)
    requires Faithful(f, source) && Serves(loader, source)
    ensures Faithful(Fetched(f, start, end, loader), source)
    ensures forall d | d in f :: d in Fetched(f, start, end, loader) && Fetched(f, start, end, loader)[d] == f[d]
  {
    if f == map[] {
      if loader(start, end).Some? {
        assert f + Between(source, start, end) == Between(source, start, end);
        FaithfulBetween(Fetched(f, start, end, loader), source, start, end);
      }
    } else {
      var lo := HeadBetween(f, source, start, loader);
      var hi := TailBetween(WithHead(f, start, loader), source, lo, Latest(f), end, loader);
      FaithfulBetween(Fetched(f, start, end, loader), source, lo, hi);
    }
  }

  datatype Request = Request(start: Date, end: Date, loader: Loader)

  function Run(f: Frame, requests: seq<Request>): Frame
    decreases |requests|
  {
    if requests == [] then f
    else Run(Fetched(f, requests[0].start, requests[0].end, requests[0].loader), requests[1..])
  }

  lemma {:induction false} RunKeepsFaithful(f: Frame, source: Frame, requests: seq<Request>)
    requires Faithful(f, source)
    requires forall i | 0 <= i < |requests| :: Serves(requests[i].loader, source)
    ensures Faithful(Run(f, requests), source)
    decreases |requests|
  {
    if requests != [] {
      FetchKeepsFaithful(f, source, requests[0].start, requests[0].end, requests[0].loader);
      RunKeepsFaithful(Fetched(f, requests[0].start, requests[0].end, requests[0].loader), source, requests[1..]);
    }
  }

  /** After any sequence of requests on a fresh cache, with any loads failing, the cached rows
      are exactly the source's rows between the cached bounds. */
  lemma CacheAgreesWithSource(source: Frame, requests: seq<Request>)
    requires forall i | 0 <= i < |requests| :: Serves(requests[i].loader, source)
    ensures Faithful(Run(map[], requests), source)
  {
    RunKeepsFaithful(map[], source, requests);
  }

  /** The dates of a request that the tolerated gaps leave out. */
  ghost predicate Tolerated(f: Frame, start: Date, end: Date, d: Date) {
    && f != map[]
    && (|| (d < Earliest(f) && Earliest(f) - start <= TOLERATED_GAP_DAYS)
        || (Latest(f) < d && end - Latest(f) <= TOLERATED_GAP_DAYS))
  }

  /** When the loads succeed a request returns every source row of the range except those in a
      tolerated gap, and returns nothing else. */
  lemma FetchReturnsAllButToleratedGap(f: Frame, source: Frame, start: Date, end: Date, loader: Loader)
    requires Faithful(f, source) && Serves(loader, source) && NeverFails(loader)
    ensures Between(Fetched(f, start, end, loader), start, end)
         == map d | d in source && start <= d <= end && !Tolerated(f, start, end, d) :: source[d]
  {
    if f == map[] {
      assert f + Between(source, start, end) == Between(source, start, end);
      BetweenBetween(source, start, end, f, start, end);
    } else {
      var lo := HeadBetween(f, source, start, loader);
      var hi := TailBetween(WithHead(f, start, loader), source, lo, Latest(f), end, loader);
      BetweenBetween(source, lo, hi, f, start, end);
    }
  }

  lemma BetweenBetween(source: Frame, lo: Date, hi: Date, f: Frame, start: Date, end: Date)
    requires forall d | start <= d <= end :: lo <= d <= hi <==> !Tolerated(f, start, end, d)
    ensures Between(Between(source, lo, hi), start, end)
         == map d | d in source && start <= d <= end && !Tolerated(f, start, end, d) :: source[d]
  {
  }

  /** At most three calendar days are missing at the head of the range and three at its tail. */
  lemma AtMostThreeDaysMissing(f: Frame, source: Frame, start: Date, end: Date, loader: Loader, d: Date)
    requires Faithful(f, source) && Serves(loader, source) && NeverFails(loader)
    requires d in source && start <= d <= end && d !in Fetched(f, start, end, loader)
    ensures d < start + 3 || end - 3 < d
  {
  }

  /** The loader is only asked about dates outside the cached bounds: what it would answer for
      any range touching them makes no difference. */
  lemma NoCachedDateIsReloaded(f: Frame, start: Date, end: Date, loader: Loader, other: Loader)
    requires f != map[]
    requires forall a, b | b < Earliest(f) || Latest(f) < a :: loader(a, b) == other(a, b)
    ensures Fetched(f, start, end, loader) == Fetched(f, start, end, other)
  {
  }
}
