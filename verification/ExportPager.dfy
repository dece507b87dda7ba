/** The capped pager behind the blast-radius export (internal/api/handlers_blast_radius.go): it walks a fixed result
    set a page at a time and must not claim a truncation that never happened. */
module ExportPager {
  import opened Wrappers

  /** The paging query: at most `limit` rows from `offset` on. */
  function Page<R>(all: seq<R>, offset: nat, limit: nat): seq<R> {
    if offset >= |all| then []
    else if |all| - offset <= limit then all[offset..]
    else all[offset..offset + limit]
  }

  function Min(a: nat, b: nat): nat {
    if a <= b then a else b
  }

  /** One query per full page of what is exported, and one more to see that it ends there. */
  function QueriesNeeded(n: nat, limit: nat, cap: nat): nat
    requires limit > 0
  {
    Min(n, cap) / limit + 1
  }

  lemma PagesBelow(q: nat, m: nat, limit: nat)
    requires limit > 0
    ensures q * limit <= m <==> q < m / limit + 1
  {
    assert m == (m / limit) * limit + m % limit;
    if q <= m / limit {
      assert q * limit <= (m / limit) * limit;
    } else {
      assert q * limit >= (m / limit + 1) * limit;
    }
  }

  /** The page that starts at row q * limit is the last one asked for exactly when it is short or passes the cap. */
  lemma LastPage<R>(all: seq<R>, q: nat, limit: nat, cap: nat)
    requires limit > 0 && q * limit <= Min(|all|, cap)
    ensures q < QueriesNeeded(|all|, limit, cap)
    ensures var offset, page := q * limit, Page(all, q * limit, limit);
            && (q + 1 == QueriesNeeded(|all|, limit, cap) <==> |page| < limit || offset + |page| > cap)
            && (q + 1 < QueriesNeeded(|all|, limit, cap) ==> (q + 1) * limit == offset + limit <= Min(|all|, cap))
  {
    var m := Min(|all|, cap);
    PagesBelow(q, m, limit);
    PagesBelow(q + 1, m, limit);
    assert (q + 1) * limit == q * limit + limit;
  }

  lemma PageJoins<R>(all: seq<R>, offset: nat, limit: nat, keep: nat)
    requires offset <= |all| && keep <= |Page(all, offset, limit)|
    ensures offset + keep <= |all| && all[..offset] + Page(all, offset, limit)[..keep] == all[..offset + keep]
  {
  }

  /** Exactly the first min(n, cap) rows in order, and `truncated` exactly when rows were left behind. `failAt`,
      if any, is the number of the query that fails; then nothing is exported. */
  method CollectBlastRadiusExportRows<R>(all: seq<R>, limit: nat, cap: nat, failAt: Option<nat>)
    returns (r: Option<(seq<R>, bool)>, queries: nat)
    requires limit > 0
    ensures r.None? <==> failAt.Some? && failAt.value < QueriesNeeded(|all|, limit, cap)
    ensures r.Some? ==> r.value == (all[..Min(|all|, cap)], |all| > cap)
    ensures r.Some? ==> queries == QueriesNeeded(|all|, limit, cap)
  {
    var rows: seq<R>, truncated, offset := [], false, 0;
    queries := 0;
    while true
      invariant !truncated && offset == queries * limit && offset <= Min(|all|, cap)
      invariant rows == all[..offset]
      invariant failAt.Some? ==> queries <= failAt.value
      decreases |all| - offset
    {
      LastPage(all, queries, limit, cap);
      if failAt == Some(queries) {
        return None, queries;
      }
      var page := Page(all, offset, limit);
      queries := queries + 1;
      PageJoins(all, offset, limit, if offset + |page| > cap then cap - offset else |page|);
      assert page[..|page|] == page;
      if |rows| + |page| > cap {
        page := page[..cap - |rows|];
        truncated := true;
      }
      rows := rows + page;
      if |page| < limit || truncated {
        assert |rows| == Min(|all|, cap);
        return Some((rows, truncated)), queries;
      }
      offset := offset + limit;
    }
  }
}
