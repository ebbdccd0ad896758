/** Reading a chain in windows while it grows. */
module LedgerPaging {
  import opened Text

  const MAX_LIMIT: nat := 1000

  datatype Page<T> = Page(entries: seq<T>, returned: nat, totalEntries: nat, hasMore: bool, nextOffset: Option<nat>)

  /** The entries at `offset`, at most `limit` of them, and where to go on. An offset past the head is an empty page. */
  function ReadLedger<T>(chain: seq<T>, offset: nat, limit: nat): Page<T>
    requires 1 <= limit <= MAX_LIMIT
  {
    var from := Min(offset, |chain|);
    var entries := chain[from..Min(offset + limit, |chain|)];
    var next := offset + |entries|;
    Page(entries, |entries|, |chain|, next < |chain|, if next < |chain| then Some(next) else None)
  }

  /** A page is the window asked for and nothing more: at most `limit` entries, those at `offset` and after, none past
      the head; and there is more exactly if the chain goes on behind the window, where the next page starts. */
  lemma PageExactly<T>(chain: seq<T>, offset: nat, limit: nat)
    requires 1 <= limit <= MAX_LIMIT
    ensures var page := ReadLedger(chain, offset, limit);
            && |page.entries| == (if offset >= |chain| then 0
                                  else if offset + limit < |chain| then limit else |chain| - offset)
            && (forall k | 0 <= k < |page.entries| :: page.entries[k] == chain[offset + k])
            && page.returned == |page.entries| && page.totalEntries == |chain|
            && (page.hasMore <==> offset + limit < |chain|)
            && page.nextOffset == (if offset + limit < |chain| then Some(offset + limit) else None)
  {
  }

  /** The chain as each request finds it: appends only. */
  ghost predicate Grows<T(!new)>(chains: nat -> seq<T>) {
    forall i: nat, j: nat | i <= j :: chains(i) <= chains(j)
  }

  /** A consumer that reads from the start and goes on while there is more, up to `requests` requests. */
  datatype Reader<T> = Reader(collected: seq<T>, offset: nat, done: bool)

  function Follow<T>(chains: nat -> seq<T>, limit: nat, requests: nat): Reader<T>
    requires 1 <= limit <= MAX_LIMIT
  {
    if requests == 0 then Reader([], 0, false)
    else
      var r := Follow(chains, limit, requests - 1);
      if r.done then r
      else
        var page := ReadLedger(chains(requests - 1), r.offset, limit);
        Reader(r.collected + page.entries, if page.hasMore then page.nextOffset.value else r.offset, !page.hasMore)
  }

  /** No gap, no duplicate: at every point the reader holds a prefix of the chain as it now is; when it stops it has
      at least everything that was there when it started. */
  lemma {:induction false} ReaderHoldsPrefix<T(!new)>(chains: nat -> seq<T>, limit: nat, requests: nat)
    requires 1 <= limit <= MAX_LIMIT && Grows(chains)
    ensures var r := Follow(chains, limit, requests);
            && (forall k: nat | k >= requests - 1 && requests > 0 :: r.collected <= chains(k))
            && (!r.done ==> |r.collected| == r.offset)
            && (requests == 0 ==> r.collected == [])
            && (r.done ==> chains(0) <= r.collected)
  {
    if requests > 0 {
      ReaderHoldsPrefix(chains, limit, requests - 1);
      var r := Follow(chains, limit, requests - 1);
      var chain := chains(requests - 1);
      if !r.done {
        if requests > 1 {
          assert chains(requests - 2) <= chain;
        }
        assert r.collected <= chain;
        var page := ReadLedger(chain, r.offset, limit);
        PageExtends(chain, r.collected, limit);
        assert chains(0) <= chain;
      }
      assert forall k: nat | k >= requests - 1 :: chain <= chains(k);
    }
  }

  /** A page read where a prefix ends extends that prefix, to the end of the chain if there is no more. */
  lemma PageExtends<T(!new)>(chain: seq<T>, collected: seq<T>, limit: nat)
    requires 1 <= limit <= MAX_LIMIT && collected <= chain
    ensures var page := ReadLedger(chain, |collected|, limit);
            && collected + page.entries <= chain
            && (if page.hasMore then page.nextOffset == Some(|collected + page.entries|) && |page.entries| == limit
                else collected + page.entries == chain)
  {
  }

  /** While the reader is not done, every request moves it on. */
  lemma {:induction false} ReaderProgress<T(!new)>(chains: nat -> seq<T>, limit: nat, requests: nat)
    requires 1 <= limit <= MAX_LIMIT && Grows(chains)
    ensures var r := Follow(chains, limit, requests);
            !r.done ==> r.offset >= requests
  {
    hide ReadLedger, Grows;
    if requests > 0 {
      ReaderProgress(chains, limit, requests - 1);
      var r := Follow(chains, limit, requests - 1);
      if !r.done {
        ReaderHoldsPrefix(chains, limit, requests - 1);
        assert r.collected <= chains(requests - 1);
        PageExtends(chains(requests - 1), r.collected, limit);
      }
    }
  }

  /** Once growth stops the reader finishes, with everything there was at the start and nothing the chain has not. */
  lemma ReaderFinishes<T(!new)>(chains: nat -> seq<T>, limit: nat, settled: nat)
    requires 1 <= limit <= MAX_LIMIT && Grows(chains)
    requires forall k: nat | k >= settled :: chains(k) == chains(settled)
    ensures var r := Follow(chains, limit, settled + |chains(settled)| + 1);
            r.done && chains(0) <= r.collected <= chains(settled)
  {
    var n := settled + |chains(settled)| + 1;
    ReaderHoldsPrefix(chains, limit, n);
    ReaderProgress(chains, limit, n);
    assert chains(n - 1) == chains(settled);
    assert Follow(chains, limit, n).collected <= chains(n - 1);
  }

  /** Where a reader of a chain that stands still is after so many requests. */
  lemma {:induction false} ReaderOfSettled<T>(chains: nat -> seq<T>, chain: seq<T>, limit: nat, requests: nat)
    requires 1 <= limit <= MAX_LIMIT && forall k: nat :: chains(k) == chain
    ensures var r := Follow(chains, limit, requests);
            && (r.done <==> requests >= 1 && requests * limit >= |chain|)
            && (!r.done ==> r.offset == requests * limit)
  {
    if requests > 0 {
      ReaderOfSettled(chains, chain, limit, requests - 1);
      assert (requests - 1) * limit + limit == requests * limit;
      PageExactly(chain, (requests - 1) * limit, limit);
    }
  }

  /** It takes exactly as many requests as there are windows in the chain, and one for an empty chain. */
  lemma ReaderTakesExactly<T>(chains: nat -> seq<T>, chain: seq<T>, limit: nat, requests: nat)
    requires 1 <= limit <= MAX_LIMIT && forall k: nat :: chains(k) == chain
    ensures var windows := (|chain| + limit - 1) / limit;
            Follow(chains, limit, requests).done <==> requests >= if chain == [] then 1 else windows
  {
    ReaderOfSettled(chains, chain, limit, requests);
    CeilingExactly(|chain|, limit, requests);
  }

  lemma CeilingExactly(n: nat, limit: nat, requests: nat)
    requires limit >= 1
    ensures requests * limit >= n <==> requests >= (n + limit - 1) / limit
  {
    var c := (n + limit - 1) / limit;
    CeilingBounds(n, limit, c);
    if requests >= c {
      MulKeepsOrder(c, requests, limit);
    } else {
      MulKeepsOrder(requests, c - 1, limit);
    }
  }

  lemma CeilingBounds(n: nat, limit: nat, c: nat)
    requires limit >= 1 && c == (n + limit - 1) / limit
    ensures n <= c * limit && (c - 1) * limit < n
  {
    assert n + limit - 1 == c * limit + (n + limit - 1) % limit;
    assert (c - 1) * limit == c * limit - limit;
  }
}
