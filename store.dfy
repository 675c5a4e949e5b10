/**
 * The `Database` object's record and settings tables: `add_income`, `update_income`,
 * `delete_income`, `get_record_count`, `set_setting` and `set_monthly_budget`.  The tables are
 * fields the methods reassign; `lastId` is SQLite's `AUTOINCREMENT` counter.
 */
module Store {
  import opened Wrappers
  import opened Models
  import opened Ledger
  import opened Listing
  import opened Digits
  import opened Settings

  /** Every row has an id, and no two rows share one. */
  predicate UniqueIds(rs: seq<IncomeRecord>) {
    (forall i :: 0 <= i < |rs| ==> rs[i].id.Some?) &&
    (forall i, j :: 0 <= i < j < |rs| ==> rs[i].id != rs[j].id)
  }

  /** Some row carries `id`. */
  predicate HasId(rs: seq<IncomeRecord>, id: int) {
    exists i :: 0 <= i < |rs| && rs[i].id == Some(id)
  }

  /** The `SET amount = ?, category = ?, description = ?, date = ?` of `update_income` on one row. */
  function Rewrite(row: IncomeRecord, r: IncomeRecord): (u: IncomeRecord)
    ensures u.id == row.id && u.createdAt == row.createdAt
    ensures u.amount == r.amount && u.category == r.category && u.description == r.description && u.date == r.date
  {
    row.(amount := r.amount, category := r.category, description := r.description, date := r.date)
  }

  /** `UPDATE ... WHERE id = ?`: the rows carrying `r`'s id rewritten, the others untouched. */
  function Updated(rs: seq<IncomeRecord>, r: IncomeRecord): (us: seq<IncomeRecord>)
    ensures |us| == |rs|
    ensures forall i :: 0 <= i < |rs| ==> us[i] == if rs[i].id == r.id then Rewrite(rs[i], r) else rs[i]
  {
    if rs == [] then []
    else [if rs[0].id == r.id then Rewrite(rs[0], r) else rs[0]] + Updated(rs[1..], r)
  }

  /** `DELETE ... WHERE id = ?`: the rows not carrying `id`, in table order. */
  function Without(rs: seq<IncomeRecord>, id: int): (ws: seq<IncomeRecord>)
    ensures forall x :: x in ws <==> x in rs && x.id != Some(id)
    ensures |ws| <= |rs|
    ensures !HasId(rs, id) ==> ws == rs
  {
    if rs == [] then []
    else
      var rest := Without(rs[1..], id);
      assert !HasId(rs, id) ==> !HasId(rs[1..], id) by {
        if HasId(rs[1..], id) {
          var i :| 0 <= i < |rs[1..]| && rs[1..][i].id == Some(id);
          assert rs[i + 1].id == Some(id);
        }
      }
      if rs[0].id == Some(id) then rest else [rs[0]] + rest
  }

  /** Every id the table holds is at most the counter. */
  predicate Below(rs: seq<IncomeRecord>, lastId: int) {
    forall i :: 0 <= i < |rs| ==> rs[i].id.Some? && 1 <= rs[i].id.value <= lastId
  }

  // ---------------------------------------------------------------- the table as values

  /** A row appended with a fresh id keeps ids unique and is found by it. */
  lemma AppendFresh(rs: seq<IncomeRecord>, lastId: int, x: IncomeRecord)
    requires lastId >= 0 && UniqueIds(rs) && Below(rs, lastId) && x.id == Some(lastId + 1)
    ensures UniqueIds(rs + [x]) && Below(rs + [x], lastId + 1)
    ensures FindById(rs + [x], lastId + 1) == Some(x)
    ensures Total(rs + [x]) == Total(rs) + x.amount
  {
    var s := rs + [x];
    assert s[|rs|] == x;
    assert forall i :: 0 <= i < |rs| ==> s[i] == rs[i];
    assert UniqueIds(s);
    FindByUniqueId(s, |rs|);
    TotalAppend(rs, [x]);
    assert Total([x]) == x.amount + Total([x][1..]);
  }

  /** Rewriting rows keeps their ids, so uniqueness and the counter bound are preserved. */
  lemma UpdatedKeepsIds(rs: seq<IncomeRecord>, r: IncomeRecord, lastId: int)
    requires UniqueIds(rs) && Below(rs, lastId) && AllValid(rs) && ValidAmount(r)
    ensures UniqueIds(Updated(rs, r)) && Below(Updated(rs, r), lastId) && AllValid(Updated(rs, r))
  {
    var us := Updated(rs, r);
    assert forall i :: 0 <= i < |rs| ==> us[i].id == rs[i].id;
  }

  /**
   * With unique ids, updating the row at `k` changes exactly that row: the lookup returns the
   * rewritten row, and the total moves by the difference of the amounts.
   */
  lemma UpdateOne(rs: seq<IncomeRecord>, k: nat, r: IncomeRecord)
    requires UniqueIds(rs) && k < |rs| && r.id == rs[k].id
    ensures Updated(rs, r) == rs[..k] + [Rewrite(rs[k], r)] + rs[k + 1..]
    ensures FindById(Updated(rs, r), r.id.value) == Some(Rewrite(rs[k], r))
    ensures Total(Updated(rs, r)) == Total(rs) - rs[k].amount + r.amount
  {
    UpdatedAt(rs, k, r);
    UpdateFinds(rs, k, r);
    UpdateTotal(rs, k, r);
  }

  lemma UpdateFinds(rs: seq<IncomeRecord>, k: nat, r: IncomeRecord)
    requires UniqueIds(rs) && k < |rs| && r.id == rs[k].id
    ensures FindById(Updated(rs, r), r.id.value) == Some(Rewrite(rs[k], r))
  {
    UpdatedKeepsUnique(rs, r);
    FindByUniqueId(Updated(rs, r), k);
  }

  lemma UpdateTotal(rs: seq<IncomeRecord>, k: nat, r: IncomeRecord)
    requires UniqueIds(rs) && k < |rs| && r.id == rs[k].id
    ensures Total(Updated(rs, r)) == Total(rs) - rs[k].amount + r.amount
  {
    var us := Updated(rs, r);
    UpdatedAt(rs, k, r);
    TotalRemove(rs, k);
    TotalRemove(us, k);
    assert us[..k] == rs[..k];
    assert us[k + 1..] == rs[k + 1..];
    assert us[k].amount == r.amount;
  }

  lemma UpdatedAt(rs: seq<IncomeRecord>, k: nat, r: IncomeRecord)
    requires UniqueIds(rs) && k < |rs| && r.id == rs[k].id
    ensures Updated(rs, r) == rs[..k] + [Rewrite(rs[k], r)] + rs[k + 1..]
  {
    var us := Updated(rs, r);
    var t := rs[..k] + [Rewrite(rs[k], r)] + rs[k + 1..];
    forall i | 0 <= i < |us| ensures us[i] == t[i] {
      if i != k {
        assert rs[i].id != rs[k].id;
      }
    }
  }

  lemma UpdatedKeepsUnique(rs: seq<IncomeRecord>, r: IncomeRecord)
    requires UniqueIds(rs)
    ensures UniqueIds(Updated(rs, r))
  {
    var us := Updated(rs, r);
    assert forall i :: 0 <= i < |rs| ==> us[i].id == rs[i].id;
  }

  /** An update whose id no row carries changes nothing. */
  lemma {:induction false} UpdateMissing(rs: seq<IncomeRecord>, r: IncomeRecord)
    requires r.id.Some? && !HasId(rs, r.id.value)
    ensures Updated(rs, r) == rs
  {
    var us := Updated(rs, r);
    forall i | 0 <= i < |us| ensures us[i] == rs[i] {
      assert rs[i].id != r.id;
    }
  }

  /** Deleting keeps ids unique and within the counter. */
  lemma WithoutKeepsIds(rs: seq<IncomeRecord>, id: int, lastId: int)
    requires UniqueIds(rs) && Below(rs, lastId) && AllValid(rs)
    ensures UniqueIds(Without(rs, id)) && Below(Without(rs, id), lastId) && AllValid(Without(rs, id))
  {
    var ws := Without(rs, id);
    WithoutUnique(rs, id);
    forall i | 0 <= i < |ws|
      ensures ws[i].id.Some? && 1 <= ws[i].id.value <= lastId && ValidAmount(ws[i])
    {
      assert ws[i] in rs;
      var m :| 0 <= m < |rs| && rs[m] == ws[i];
    }
  }

  lemma {:induction false} WithoutUnique(rs: seq<IncomeRecord>, id: int)
    requires UniqueIds(rs)
    ensures UniqueIds(Without(rs, id))
  {
    if rs != [] {
      UniqueTail(rs);
      WithoutUnique(rs[1..], id);
      if rs[0].id != Some(id) {
        ConsUnique(rs[0], Without(rs[1..], id), rs[1..]);
      }
    }
  }

  /** A row whose id no row of `tail` carries can go in front of unique rows drawn from `tail`. */
  lemma ConsUnique(x: IncomeRecord, rest: seq<IncomeRecord>, tail: seq<IncomeRecord>)
    requires UniqueIds(rest) && x.id.Some? && !HasId(tail, x.id.value)
    requires forall y :: y in rest ==> y in tail
    ensures UniqueIds([x] + rest)
  {
    var s := [x] + rest;
    assert forall i :: 0 < i < |s| ==> s[i] == rest[i - 1];
    forall j | 0 < j < |s| ensures s[0].id != s[j].id {
      assert s[j] in tail;
      var m :| 0 <= m < |tail| && tail[m] == s[j];
    }
  }

  /**
   * With unique ids, deleting the row at `k` removes just it: the lookup then fails, one row
   * fewer remains, and the total drops by its amount.
   */
  lemma {:induction false} DeleteOne(rs: seq<IncomeRecord>, k: nat)
    requires UniqueIds(rs) && k < |rs|
    ensures Without(rs, rs[k].id.value) == rs[..k] + rs[k + 1..]
    ensures FindById(Without(rs, rs[k].id.value), rs[k].id.value).None?
    ensures |Without(rs, rs[k].id.value)| == |rs| - 1
    ensures Total(Without(rs, rs[k].id.value)) == Total(rs) - rs[k].amount
  {
    var id := rs[k].id.value;
    WithoutAt(rs, k);
    TotalRemove(rs, k);
    var ws := Without(rs, id);
  }

  lemma {:induction false} WithoutAt(rs: seq<IncomeRecord>, k: nat)
    requires UniqueIds(rs) && k < |rs|
    ensures Without(rs, rs[k].id.value) == rs[..k] + rs[k + 1..]
  {
    UniqueTail(rs);
    if k == 0 {
      assert rs[..k] + rs[k + 1..] == rs[1..];
    } else {
      assert rs[1..][k - 1] == rs[k];
      WithoutAt(rs[1..], k - 1);
      assert rs[0].id != rs[k].id;
      SliceCons(rs, k);
    }
  }

  lemma SliceCons<T>(s: seq<T>, k: nat)
    requires 0 < k < |s|
    ensures s[..k] + s[k + 1..] == [s[0]] + (s[1..][..k - 1] + s[1..][k..])
  {
  }

  /** The rows after the first have unique ids too, and none of them carries the first one's. */
  lemma UniqueTail(rs: seq<IncomeRecord>)
    requires UniqueIds(rs) && rs != []
    ensures UniqueIds(rs[1..]) && !HasId(rs[1..], rs[0].id.value)
  {
    assert forall i :: 0 <= i < |rs[1..]| ==> rs[1..][i] == rs[i + 1];
  }

  // ---------------------------------------------------------------- the object

  class Database {
    /** `income_records` in table order. */
    var records: seq<IncomeRecord>
    /** `app_settings`. */
    var settings: map<string, string>
    /** The largest id ever handed out (`sqlite_sequence`). */
    var lastId: int

    ghost predicate Valid()
      reads this
    {
      lastId >= 0 && UniqueIds(records) && Below(records, lastId) && AllValid(records)
    }

    /** A fresh, empty database file. */
    constructor ()
      ensures Valid()
      ensures records == [] && settings == map[] && lastId == 0
    {
      records := [];
      settings := map[];
      lastId := 0;
    }

    /** `add_income(record)`: inserts the record under a fresh id, ignoring `record.id`, and returns that id. */
    method AddIncome(r: IncomeRecord) returns (id: int)
      requires Valid() && ValidAmount(r)
      modifies this
      ensures Valid()
      ensures id == old(lastId) + 1 && lastId == id
      ensures records == old(records) + [r.(id := Some(id))]
      ensures settings == old(settings)
      ensures FindById(records, id) == Some(r.(id := Some(id)))
      ensures Total(records) == Total(old(records)) + r.amount
    {
      id := lastId + 1;
      AppendFresh(records, lastId, r.(id := Some(id)));
      records := records + [r.(id := Some(id))];
      lastId := id;
    }

    /**
     * `update_income(record)`: False without touching anything when `record.id` is None;
     * otherwise the rows with that id are rewritten, and the result says whether there was one.
     */
    method UpdateIncome(r: IncomeRecord) returns (ok: bool)
      requires Valid() && ValidAmount(r)
      modifies this
      ensures Valid()
      ensures r.id.None? ==> !ok && records == old(records)
      ensures r.id.Some? ==> ok == HasId(old(records), r.id.value) && records == Updated(old(records), r)
      ensures !ok ==> records == old(records)
      ensures lastId == old(lastId) && settings == old(settings)
    {
      if r.id.None? {
        return false;
      }
      ok := HasId(records, r.id.value);
      if !ok {
        UpdateMissing(records, r);
      }
      UpdatedKeepsIds(records, r, lastId);
      records := Updated(records, r);
    }

    /** `delete_income(record_id)`: removes the row with that id; the result says whether there was one. */
    method DeleteIncome(id: int) returns (ok: bool)
      requires Valid()
      modifies this
      ensures Valid()
      ensures ok == HasId(old(records), id) && records == Without(old(records), id)
      ensures !ok ==> records == old(records)
      ensures FindById(records, id).None?
      ensures lastId == old(lastId) && settings == old(settings)
    {
      ok := HasId(records, id);
      WithoutKeepsIds(records, id, lastId);
      records := Without(records, id);
    }

    /** `get_record_count()`. */
    method RecordCount() returns (n: nat)
      ensures n == |records|
    {
      n := |records|;
    }

    /** `set_setting(key, value)`: `INSERT OR REPLACE` always affects one row, so the result is True. */
    method SetSetting(key: string, value: string) returns (ok: bool)
      modifies this
      ensures ok
      ensures settings == old(settings)[key := value]
      ensures records == old(records) && lastId == old(lastId)
    {
      settings := settings[key := value];
      ok := true;
    }

    /** `set_monthly_budget(amount)` for an amount of `cents` hundredths, stored as `str(amount)`. */
    method SetMonthlyBudget(cents: int) returns (ok: bool)
      requires InPlainRange(cents)
      modifies this
      ensures ok
      ensures settings == old(settings)[BudgetKey := BudgetText(cents)]
      ensures MonthlyBudget(settings) == cents as real / 100.0
      ensures records == old(records) && lastId == old(lastId)
    {
      BudgetRoundTrip(settings, cents);
      ok := SetSetting(BudgetKey, BudgetText(cents));
    }
  }
}
