/** The income record value type: construction check, database-row reading and dict conversion. */
module Models {
  import opened Wrappers
  import opened Calendar
  import Iso = IsoFormat
  import Digits

  /** An income record; `id` is None until the store assigns one. */
  datatype IncomeRecord = IncomeRecord(
    id: Option<int>,
    amount: real,
    category: string,
    description: string,
    date: DateTime,
    createdAt: DateTime)

  /** The two ValueErrors records raise: a negative amount, or timestamp text `fromisoformat` rejects. */
  datatype RecordError = NegativeAmount | BadTimestamp

  /** The invariant `__post_init__` establishes. */
  predicate ValidAmount(r: IncomeRecord) {
    r.amount >= 0.0
  }

  /** `IncomeRecord(...)`: the dataclass constructor followed by `__post_init__`. */
  function NewRecord(id: Option<int>, amount: real, category: string, description: string,
                     date: DateTime, createdAt: DateTime): (r: Result<IncomeRecord, RecordError>)
    ensures r.Ok? <==> amount >= 0.0
    ensures r.Err? ==> r.error == NegativeAmount
    ensures r.Ok? ==> ValidAmount(r.value)
    ensures r.Ok? ==> (r.value.id == id && r.value.amount == amount && r.value.category == category
                       && r.value.description == description && r.value.date == date
                       && r.value.createdAt == createdAt)
  {
    if amount < 0.0 then Err(NegativeAmount)
    else Ok(IncomeRecord(id, amount, category, description, date, createdAt))
  }

  /** A row of `income_records` as the query returns it: timestamps are ISO text. */
  datatype Row = Row(
    id: Option<int>,
    amount: real,
    category: string,
    description: string,
    date: string,
    createdAt: string)

  /**
   * `IncomeRecord.from_db_row`: the timestamps are parsed while the constructor's arguments
   * are evaluated, so a bad timestamp is reported before the amount is checked.
   */
  function FromDbRow(row: Row): (r: Result<IncomeRecord, RecordError>)
    ensures r.Ok? <==> Iso.Parse(row.date).Some? && Iso.Parse(row.createdAt).Some? && row.amount >= 0.0
    ensures r.Err? && r.error == NegativeAmount ==> row.amount < 0.0
    ensures r.Ok? ==> ValidAmount(r.value) && Valid(r.value.date) && Valid(r.value.createdAt)
    ensures r.Ok? ==> (r.value.id == row.id && r.value.amount == row.amount
                       && r.value.category == row.category && r.value.description == row.description
                       && Some(r.value.date) == Iso.Parse(row.date)
                       && Some(r.value.createdAt) == Iso.Parse(row.createdAt))
  {
    match (Iso.Parse(row.date), Iso.Parse(row.createdAt))
    case (Some(date), Some(createdAt)) =>
      NewRecord(row.id, row.amount, row.category, row.description, date, createdAt)
    case _ => Err(BadTimestamp)
  }

  /** `IncomeRecord.to_dict()`. */
  datatype RecordDict = RecordDict(
    id: Option<int>,
    amount: real,
    category: string,
    description: string,
    date: string,
    createdAt: string)

  function ToDict(r: IncomeRecord): (d: RecordDict)
    requires Valid(r.date) && Valid(r.createdAt)
    ensures d.id == r.id && d.amount == r.amount && d.category == r.category
      && d.description == r.description
    ensures Iso.Parse(d.date) == Some(r.date) && Iso.Parse(d.createdAt) == Some(r.createdAt)
  {
    Iso.RoundTrip(r.date);
    Iso.RoundTrip(r.createdAt);
    RecordDict(r.id, r.amount, r.category, r.description, Iso.Format(r.date), Iso.Format(r.createdAt))
  }

  /** A row written from a record's fields, timestamps as ISO text, reads back as the same record. */
  lemma RowRoundTrip(r: IncomeRecord)
    requires ValidAmount(r) && Valid(r.date) && Valid(r.createdAt)
    ensures var d := ToDict(r);
      FromDbRow(Row(d.id, d.amount, d.category, d.description, d.date, d.createdAt)) == Ok(r)
  {
  }

  /** The offset of `BEIJING_TZ`, in minutes, which every timestamp the application writes carries. */
  const BeijingOffset: int := 8 * 60

  /**
   * A row as the application stores it, each timestamp written by `isoformat()` of a datetime
   * in `BEIJING_TZ` and so ending in "+08:00", reads back as the record.
   */
  lemma BeijingRowRoundTrip(r: IncomeRecord)
    requires ValidAmount(r) && Valid(r.date) && Valid(r.createdAt)
    ensures var zone := Iso.OffsetText(BeijingOffset);
      zone == "+08:00" &&
      FromDbRow(Row(r.id, r.amount, r.category, r.description,
                    Iso.Format(r.date) + zone, Iso.Format(r.createdAt) + zone)) == Ok(r)
  {
    var zone := Iso.OffsetText(BeijingOffset);
    BeijingZoneText();
    Iso.ZonedRoundTrip(r.date, BeijingOffset);
    Iso.ZonedRoundTrip(r.createdAt, BeijingOffset);
    var date, createdAt := Iso.Format(r.date) + zone, Iso.Format(r.createdAt) + zone;
    assert Iso.Parse(date) == Some(r.date) && Iso.Parse(createdAt) == Some(r.createdAt);
  }

  lemma BeijingZoneText()
    ensures Iso.OffsetText(BeijingOffset) == "+08:00"
  {
    assert Digits.Pad(8, 2) == "08" && Digits.Pad(0, 2) == "00";
  }

  /** A row with a negative amount is rejected even when its timestamps are well formed. */
  lemma NegativeRowRejected(row: Row)
    requires row.amount < 0.0 && Iso.Parse(row.date).Some? && Iso.Parse(row.createdAt).Some?
    ensures FromDbRow(row) == Err(NegativeAmount)
  {
  }
}
