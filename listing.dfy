/**
 * `get_incomes` and `get_income_by_id`: the filtered, ordered and paginated record listing and
 * the lookup by primary key, over a snapshot of `income_records` in table order.
 */
module Listing {
  import opened Wrappers
  import opened Calendar
  import opened Models
  import opened Ledger
  import opened Sorting

  /**
   * The `WHERE` clause `get_incomes` builds.  A bound or category is only applied when given;
   * an empty category string is falsy in Python, so it filters nothing.
   */
  predicate Matches(r: IncomeRecord, start: Option<DateTime>, end: Option<DateTime>, category: Option<string>) {
    InDates(r, start, end) && (category.None? || category.value == "" || r.category == category.value)
  }

  /** The rows the `WHERE` clause keeps, in table order. */
  function Select(rs: seq<IncomeRecord>, start: Option<DateTime>, end: Option<DateTime>, category: Option<string>)
    : (ws: seq<IncomeRecord>)
    ensures forall r :: r in ws <==> r in rs && Matches(r, start, end, category)
    ensures multiset(ws) <= multiset(rs) && |ws| <= |rs|
  {
    if rs == [] then []
    else
      assert rs == [rs[0]] + rs[1..];
      (if Matches(rs[0], start, end, category) then [rs[0]] else []) + Select(rs[1..], start, end, category)
  }

  /** `ORDER BY date DESC, created_at DESC`: `a` may come before `b`. */
  predicate Newer(a: IncomeRecord, b: IncomeRecord) {
    Lt(b.date, a.date) || (a.date == b.date && Le(b.createdAt, a.createdAt))
  }

  lemma NewerIsPreorder()
    ensures TotalPreorder(Newer)
  {
  }

  /** `LIMIT limit OFFSET offset`: a negative limit is no limit, a negative offset is 0. */
  function Page<T>(s: seq<T>, limit: int, offset: int): (p: seq<T>)
    ensures limit >= 0 ==> |p| <= limit
    ensures offset <= 0 && (limit < 0 || limit >= |s|) ==> p == s
    ensures var o := if offset < 0 then 0 else offset;
            o <= |s| ==> o + |p| <= |s| && p == s[o..o + |p|]
    ensures var o := if offset < 0 then 0 else offset;
            o >= |s| || limit == 0 <==> p == []
    ensures var o := if offset < 0 then 0 else offset;
            o <= |s| ==> |p| == (if limit < 0 || o + limit > |s| then |s| - o else limit)
  {
    var o := if offset < 0 then 0 else offset;
    if o >= |s| then []
    else if limit < 0 || o + limit > |s| then s[o..]
    else s[o..o + limit]
  }

  /** `get_incomes(start_date, end_date, category, limit, offset)`. */
  function GetIncomes(rs: seq<IncomeRecord>, start: Option<DateTime>, end: Option<DateTime>,
                      category: Option<string>, limit: int, offset: int): (ws: seq<IncomeRecord>)
    ensures limit >= 0 ==> |ws| <= limit
    ensures var o := if offset < 0 then 0 else offset;
            var n := |Select(rs, start, end, category)|;
            if o >= n then ws == []
            else |ws| == (if limit < 0 || o + limit > n then n - o else limit)
    ensures forall r :: r in ws ==> r in rs && Matches(r, start, end, category)
    ensures SortedBy(ws, Newer)
  {
    var sel := Select(rs, start, end, category);
    var sorted := Sort(sel, Newer);
    assert forall x :: x in sorted ==> x in multiset(sorted) && x in multiset(sel);
    NewerIsPreorder();
    SortSorted(Select(rs, start, end, category), Newer);
    var p := Page(sorted, limit, offset);
    PageOfSorted(sorted, Newer, limit, offset);
    p
  }

  lemma PageOfSorted<T>(s: seq<T>, geq: (T, T) -> bool, limit: int, offset: int)
    requires SortedBy(s, geq)
    ensures SortedBy(Page(s, limit, offset), geq)
    ensures forall x :: x in Page(s, limit, offset) ==> x in s
  {
    var o := if offset < 0 then 0 else offset;
    var p := Page(s, limit, offset);
    if o < |s| {
      assert forall k :: 0 <= k < |p| ==> p[k] == s[o + k];
    }
  }

  /** Consecutive pages tile a sequence: the first `k` items, then `j` more from offset `k`, are the first `k + j`. */
  lemma PageTiles<T>(s: seq<T>, k: nat, j: nat)
    ensures Page(s, k, 0) + Page(s, j, k) == Page(s, k + j, 0)
  {
    if k < |s| {
      var e := if k + j > |s| then |s| else k + j;
      assert Page(s, k, 0) == s[..k];
      assert Page(s, j, k) == s[k..e];
      assert Page(s, k + j, 0) == s[..e];
      assert s[..k] + s[k..e] == s[..e];
    }
  }

  /**
   * Paging through the listing misses and repeats nothing: the first `k` records followed by
   * the `j` records from offset `k` are the first `k + j` records.
   */
  lemma GetIncomesTiles(rs: seq<IncomeRecord>, start: Option<DateTime>, end: Option<DateTime>,
                        category: Option<string>, k: nat, j: nat)
    ensures GetIncomes(rs, start, end, category, k, 0) + GetIncomes(rs, start, end, category, j, k)
            == GetIncomes(rs, start, end, category, k + j, 0)
  {
    PageTiles(Sort(Select(rs, start, end, category), Newer), k, j);
  }

  /** Every page is the run of the complete, unpaged listing that starts at the offset. */
  lemma PageOfListing(rs: seq<IncomeRecord>, start: Option<DateTime>, end: Option<DateTime>,
                      category: Option<string>, limit: int, offset: int)
    ensures var all := GetIncomes(rs, start, end, category, -1, 0);
            var ws := GetIncomes(rs, start, end, category, limit, offset);
            var o := if offset < 0 then 0 else offset;
            o <= |all| ==> o + |ws| <= |all| && ws == all[o..o + |ws|]
  {
    var sorted := Sort(Select(rs, start, end, category), Newer);
    assert GetIncomes(rs, start, end, category, -1, 0) == sorted;
  }

  /** Records that agree on `date` and `created_at`, the columns `ORDER BY` sorts on, are one record. */
  predicate UniqueKeys(rs: seq<IncomeRecord>) {
    forall a, b :: a in rs && b in rs && a.date == b.date && a.createdAt == b.createdAt ==> a == b
  }

  /**
   * With unique sort keys there is one order `ORDER BY date DESC, created_at DESC` allows:
   * two orderings of the same rows that both respect it are the same sequence.
   */
  lemma {:induction false} SortedUnique(s: seq<IncomeRecord>, t: seq<IncomeRecord>)
    requires multiset(s) == multiset(t)
    requires SortedBy(s, Newer) && SortedBy(t, Newer)
    requires UniqueKeys(s)
    ensures s == t
  {
    if s == [] {
      assert |t| == |multiset(t)| == 0;
    } else {
      assert |t| == |multiset(t)| == |s|;
      SameHead(s, t);
      assert s == [s[0]] + s[1..] && t == [t[0]] + t[1..];
      assert multiset(s[1..]) == multiset(s) - multiset{s[0]};
      assert multiset(t[1..]) == multiset(t) - multiset{t[0]};
      SortedUnique(s[1..], t[1..]);
    }
  }

  /** Two orderings respecting `Newer` of the same rows with unique keys begin alike. */
  lemma SameHead(s: seq<IncomeRecord>, t: seq<IncomeRecord>)
    requires s != [] && t != [] && multiset(s) == multiset(t)
    requires SortedBy(s, Newer) && SortedBy(t, Newer)
    requires UniqueKeys(s)
    ensures s[0] == t[0]
  {
    assert s[0] in multiset(t) && t[0] in multiset(s);
    var m :| 0 <= m < |t| && t[m] == s[0];
    var n :| 0 <= n < |s| && s[n] == t[0];
    if n > 0 && m > 0 {
      assert Newer(s[0], s[n]) && Newer(t[0], t[m]);
      NewerAntisymmetric(s[0], t[0]);
    }
  }

  /** Each of two records being `Newer` than the other means their sort keys agree. */
  lemma NewerAntisymmetric(a: IncomeRecord, b: IncomeRecord)
    requires Newer(a, b) && Newer(b, a)
    ensures a.date == b.date && a.createdAt == b.createdAt
  {
  }

  /**
   * Every query of `get_incomes` sorts anew, and SQL may return rows whose sort keys tie in any
   * order.  With unique keys any order it may return is the model's listing, so its
   * `LIMIT`/`OFFSET` pages are the model's pages.
   */
  lemma AnyOrderIsListing(rs: seq<IncomeRecord>, start: Option<DateTime>, end: Option<DateTime>,
                          category: Option<string>, order: seq<IncomeRecord>, limit: int, offset: int)
    requires UniqueKeys(rs)
    requires multiset(order) == multiset(Select(rs, start, end, category)) && SortedBy(order, Newer)
    ensures order == GetIncomes(rs, start, end, category, -1, 0)
    ensures Page(order, limit, offset) == GetIncomes(rs, start, end, category, limit, offset)
  {
    var sel := Select(rs, start, end, category);
    var sorted := Sort(sel, Newer);
    NewerIsPreorder();
    SortSorted(sel, Newer);
    assert forall x :: x in order ==> x in multiset(order) && x in sel;
    SortedUnique(order, sorted);
  }

  /** A first page with room for every match lists each matching record exactly as often as the table holds it. */
  lemma GetIncomesComplete(rs: seq<IncomeRecord>, start: Option<DateTime>, end: Option<DateTime>,
                           category: Option<string>, limit: int, offset: int)
    requires offset <= 0 && (limit < 0 || limit >= |rs|)
    ensures multiset(GetIncomes(rs, start, end, category, limit, offset)) == multiset(Select(rs, start, end, category))
  {
  }

  /** Without filters, the first page of an unlimited listing is the whole table, newest first. */
  lemma UnfilteredListing(rs: seq<IncomeRecord>)
    ensures multiset(GetIncomes(rs, None, None, None, -1, 0)) == multiset(rs)
  {
    SelectAll(rs);
    GetIncomesComplete(rs, None, None, None, -1, 0);
  }

  lemma {:induction false} SelectAll(rs: seq<IncomeRecord>)
    ensures Select(rs, None, None, None) == rs
  {
    if rs != [] {
      SelectAll(rs[1..]);
    }
  }

  // ---------------------------------------------------------------- get_income_by_id

  /** `SELECT ... WHERE id = ?` with `fetchone()`: the first row carrying the id. */
  function FindById(rs: seq<IncomeRecord>, id: int): (r: Option<IncomeRecord>)
    ensures r.Some? <==> exists i :: 0 <= i < |rs| && rs[i].id == Some(id)
    ensures r.Some? ==> r.value in rs && r.value.id == Some(id)
  {
    if rs == [] then None
    else if rs[0].id == Some(id) then Some(rs[0])
    else
      var t := FindById(rs[1..], id);
      assert forall i :: 1 <= i < |rs| ==> rs[i] == rs[1..][i - 1];
      t
  }

  /** With unique ids, the lookup returns the one record carrying the id. */
  lemma FindByUniqueId(rs: seq<IncomeRecord>, k: nat)
    requires k < |rs| && rs[k].id.Some?
    requires forall i, j :: 0 <= i < j < |rs| && rs[i].id.Some? ==> rs[i].id != rs[j].id
    ensures FindById(rs, rs[k].id.value) == Some(rs[k])
  {
    var r := FindById(rs, rs[k].id.value);
    var i :| 0 <= i < |rs| && rs[i] == r.value;
    if i != k {
      assert rs[i].id == rs[k].id;
    }
  }
}
