/** The daily rates banner (`src/components/DailyRatesBanner.tsx`): the committed rates of the
    chosen day, an editing copy, the editing flag, and the save that writes the copy back to the
    daily rates table as an upsert on (date, material, karat). */
module DailyRates {
  import opened Base

  /** A price cell: the number the database returned, or the text typed into the input, which
      the handler stores as it is. */
  datatype Price = Amount(value: real) | Entered(text: string)

  /** A row of the daily rates table, as fetched and as upserted. */
  datatype DailyRate = DailyRate(inserted_by: string, asof_date: string, material: string, karat: string, n_price: Price, o_price: Price)

  /** The editable price columns. */
  datatype PriceField = NPrice | OPrice

  /** `rate[field] = value`: only the named price changes. */
  function SetPrice(rate: DailyRate, f: PriceField, value: string): (r: DailyRate)
    ensures f == NPrice ==> r == rate.(n_price := Entered(value))
    ensures f == OPrice ==> r == rate.(o_price := Entered(value))
    ensures r.material == rate.material && r.karat == rate.karat && r.asof_date == rate.asof_date
    ensures r.inserted_by == rate.inserted_by
  {
    match f
    case NPrice => rate.(n_price := Entered(value))
    case OPrice => rate.(o_price := Entered(value))
  }

  /** The conflict key of the upsert: `asof_date,material,karat`. */
  datatype RateKey = RateKey(asof_date: string, material: string, karat: string)

  function KeyOf(rate: DailyRate): RateKey
  {
    RateKey(rate.asof_date, rate.material, rate.karat)
  }

  /** `ratesToUpsert`: one row per editing row, in order, stamped with the user and the chosen
      day; material, karat and both prices copied. */
  function UpsertRows(username: string, date: string, editing: seq<DailyRate>): (r: seq<DailyRate>)
    ensures |r| == |editing|
    ensures forall i :: 0 <= i < |r| ==>
      r[i] == DailyRate(username, date, editing[i].material, editing[i].karat, editing[i].n_price, editing[i].o_price)
  {
    seq(|editing|, i requires 0 <= i < |editing| =>
      DailyRate(username, date, editing[i].material, editing[i].karat, editing[i].n_price, editing[i].o_price))
  }

  predicate DistinctKeys(rows: seq<DailyRate>)
  {
    forall i, j :: 0 <= i < j < |rows| ==> KeyOf(rows[i]) != KeyOf(rows[j])
  }

  /** The rows written one after another: each one replaces the row under its key or adds one. */
  function Merge(table: map<RateKey, DailyRate>, rows: seq<DailyRate>): map<RateKey, DailyRate>
    decreases |rows|
  {
    if |rows| == 0 then table else Merge(table[KeyOf(rows[0]) := rows[0]], rows[1..])
  }

  /** `upsert(rows, { onConflict: 'asof_date,material,karat' })`, PostgreSQL's `INSERT ... ON
      CONFLICT DO UPDATE`: a batch that would change the same row twice fails as a whole;
      otherwise every row replaces the row under its key, or is added. */
  function Upsert(table: map<RateKey, DailyRate>, rows: seq<DailyRate>): (r: Option<map<RateKey, DailyRate>>)
    ensures r.None? <==> !DistinctKeys(rows)
  {
    if DistinctKeys(rows) then Some(Merge(table, rows)) else None
  }

  /** After a merge, the table holds the keys it held and the keys of the rows. */
  lemma {:induction false} MergeKeys(table: map<RateKey, DailyRate>, rows: seq<DailyRate>)
    ensures Merge(table, rows).Keys == table.Keys + (set i | 0 <= i < |rows| :: KeyOf(rows[i]))
    decreases |rows|
  {
    if |rows| > 0 {
      MergeKeys(table[KeyOf(rows[0]) := rows[0]], rows[1..]);
      var later := set i | 0 <= i < |rows[1..]| :: KeyOf(rows[1..][i]);
      var all := set i | 0 <= i < |rows| :: KeyOf(rows[i]);
      assert all == {KeyOf(rows[0])} + later by {
        forall k | k in all ensures k in {KeyOf(rows[0])} + later {
          var i :| 0 <= i < |rows| && k == KeyOf(rows[i]);
          if i > 0 {
            assert k == KeyOf(rows[1..][i - 1]);
          }
        }
        forall k | k in later ensures k in all {
          var i :| 0 <= i < |rows[1..]| && k == KeyOf(rows[1..][i]);
          assert k == KeyOf(rows[i + 1]);
        }
      }
    }
  }

  /** A key no row carries keeps its row. */
  lemma {:induction false} MergeKeeps(table: map<RateKey, DailyRate>, rows: seq<DailyRate>, k: RateKey)
    requires k in table && forall i :: 0 <= i < |rows| ==> KeyOf(rows[i]) != k
    ensures k in Merge(table, rows) && Merge(table, rows)[k] == table[k]
    decreases |rows|
  {
    if |rows| > 0 {
      assert KeyOf(rows[0]) != k;
      assert forall i :: 0 <= i < |rows[1..]| ==> rows[1..][i] == rows[i + 1];
      MergeKeeps(table[KeyOf(rows[0]) := rows[0]], rows[1..], k);
    }
  }

  /** With distinct keys, each row ends up stored under its key. */
  lemma {:induction false} MergeStores(table: map<RateKey, DailyRate>, rows: seq<DailyRate>, i: nat)
    requires DistinctKeys(rows) && i < |rows|
    ensures KeyOf(rows[i]) in Merge(table, rows) && Merge(table, rows)[KeyOf(rows[i])] == rows[i]
    decreases |rows|
  {
    var t := table[KeyOf(rows[0]) := rows[0]];
    if i == 0 {
      forall j | 0 <= j < |rows[1..]| ensures KeyOf(rows[1..][j]) != KeyOf(rows[0]) {
        assert rows[1..][j] == rows[j + 1];
      }
      MergeKeeps(t, rows[1..], KeyOf(rows[0]));
    } else {
      assert forall j :: 0 <= j < |rows[1..]| ==> rows[1..][j] == rows[j + 1];
      assert rows[1..][i - 1] == rows[i];
      MergeStores(t, rows[1..], i - 1);
    }
  }

  /** A successful upsert: every row stored under its key, every other row of the table
      untouched, and nothing else added. */
  lemma UpsertEffect(table: map<RateKey, DailyRate>, rows: seq<DailyRate>)
    requires DistinctKeys(rows)
    ensures var t := Upsert(table, rows).value;
      && t.Keys == table.Keys + (set i | 0 <= i < |rows| :: KeyOf(rows[i]))
      && (forall i :: 0 <= i < |rows| ==> t[KeyOf(rows[i])] == rows[i])
      && (forall k :: k in table && (forall i :: 0 <= i < |rows| ==> KeyOf(rows[i]) != k) ==> t[k] == table[k])
  {
    MergeKeys(table, rows);
    forall i | 0 <= i < |rows| ensures Merge(table, rows)[KeyOf(rows[i])] == rows[i] {
      MergeStores(table, rows, i);
    }
    forall k | k in table && (forall i :: 0 <= i < |rows| ==> KeyOf(rows[i]) != k)
      ensures Merge(table, rows)[k] == table[k]
    {
      MergeKeeps(table, rows, k);
    }
  }

  /** Saving the rates of the chosen day without editing them changes no price: every row is
      stored back under its own key as it was, only stamped with the user who saved. */
  lemma SaveUnchangedKeepsPrices(table: map<RateKey, DailyRate>, username: string, date: string, rates: seq<DailyRate>, i: nat)
    requires i < |rates| && forall j :: 0 <= j < |rates| ==> rates[j].asof_date == date
    requires DistinctKeys(rates)
    ensures var t := Upsert(table, UpsertRows(username, date, rates));
      t.Some? && KeyOf(rates[i]) in t.value && t.value[KeyOf(rates[i])] == rates[i].(inserted_by := username)
  {
    var rows := UpsertRows(username, date, rates);
    forall a, b | 0 <= a < b < |rows| ensures KeyOf(rows[a]) != KeyOf(rows[b]) {
      assert KeyOf(rows[a]) == KeyOf(rates[a]) && KeyOf(rows[b]) == KeyOf(rates[b]);
    }
    MergeStores(table, rows, i);
    assert KeyOf(rows[i]) == KeyOf(rates[i]);
  }

  /** `rows` is what the query for the day `date` returns from the table `t`: rows of that day,
      each stored in `t` under its key, and every row of `t` on that day among them. */
  predicate DayRows(t: map<RateKey, DailyRate>, date: string, rows: seq<DailyRate>)
  {
    && (forall i :: 0 <= i < |rows| ==> rows[i].asof_date == date && KeyOf(rows[i]) in t && t[KeyOf(rows[i])] == rows[i])
    && (forall k :: k in t && k.asof_date == date ==> exists i :: 0 <= i < |rows| && KeyOf(rows[i]) == k)
  }

  /** After a successful save, the rates fetched for the chosen day include every row that was
      saved, as it was saved. */
  lemma SavedRatesShown(table: map<RateKey, DailyRate>, username: string, date: string, editing: seq<DailyRate>, fetched: seq<DailyRate>, i: nat)
    requires i < |editing|
    requires Upsert(table, UpsertRows(username, date, editing)).Some?
    requires DayRows(Upsert(table, UpsertRows(username, date, editing)).value, date, fetched)
    ensures UpsertRows(username, date, editing)[i] in fetched
  {
    var rows := UpsertRows(username, date, editing);
    var t := Upsert(table, rows).value;
    MergeStores(table, rows, i);
    var k := KeyOf(rows[i]);
    assert k in t && k.asof_date == date;
    var j :| 0 <= j < |fetched| && KeyOf(fetched[j]) == k;
    assert fetched[j] == t[k] == rows[i];
  }

  /** `rates.map(rate => ({ ...rate }))`: a fresh buffer holding a copy of every rate. */
  method CopyRates(rates: seq<DailyRate>) returns (a: array<DailyRate>)
    ensures fresh(a) && a[..] == rates
  {
    a := new DailyRate[|rates|];
    for i := 0 to |rates|
      invariant a[..i] == rates[..i]
    {
      a[i] := rates[i];
    }
  }

  /** The banner's state: the chosen day, its committed rates, the editing buffer and flag, and
      the daily rates table. */
  class RatesBanner {
    var selectedDate: string
    var rates: seq<DailyRate>
    var editingRates: array<DailyRate>
    var isEditing: bool
    var table: map<RateKey, DailyRate>

    constructor(today: string, table0: map<RateKey, DailyRate>)
      ensures selectedDate == today && rates == [] && editingRates[..] == [] && !isEditing && table == table0
    {
      selectedDate := today;
      rates := [];
      editingRates := new DailyRate[0];
      isEditing := false;
      table := table0;
    }

    /** `fetchRates`: `data` is what the query for the chosen day returned, `None` on an error,
        which leaves everything as it was. */
    method Fetch(data: Option<seq<DailyRate>>)
      modifies this
      ensures data.Some? ==> rates == data.value && editingRates[..] == data.value && fresh(editingRates)
      ensures data.None? ==> rates == old(rates) && editingRates == old(editingRates)
      ensures selectedDate == old(selectedDate) && isEditing == old(isEditing) && table == old(table)
    {
      if data.Some? {
        rates := data.value;
        editingRates := CopyRates(data.value);
      }
    }

    /** Choosing another day fetches its rates; the date input is disabled while editing. */
    method SelectDate(date: string, data: Option<seq<DailyRate>>)
      requires !isEditing
      modifies this
      ensures selectedDate == date
      ensures data.Some? ==> rates == data.value && editingRates[..] == data.value && fresh(editingRates)
      ensures data.None? ==> rates == old(rates) && editingRates == old(editingRates)
      ensures isEditing == old(isEditing) && table == old(table)
    {
      selectedDate := date;
      Fetch(data);
    }

    /** `handleEdit`. */
    method Edit()
      modifies this
      ensures isEditing
      ensures rates == old(rates) && editingRates == old(editingRates) && selectedDate == old(selectedDate) && table == old(table)
    {
      isEditing := true;
    }

    /** `handleCancel`: the buffer goes back to a copy of the committed rates. */
    method Cancel()
      modifies this
      ensures !isEditing
      ensures editingRates[..] == rates && fresh(editingRates)
      ensures rates == old(rates) && selectedDate == old(selectedDate) && table == old(table)
    {
      isEditing := false;
      editingRates := CopyRates(rates);
    }

    /** `handleInputChange(index, field, value)`: one price of one row of the buffer takes the
        typed text; the committed rates are a separate copy and stay as they are. */
    method HandleInputChange(index: nat, f: PriceField, value: string)
      requires index < editingRates.Length
      modifies editingRates
      ensures editingRates[index] == SetPrice(old(editingRates[index]), f, value)
      ensures forall j :: 0 <= j < editingRates.Length && j != index ==> editingRates[j] == old(editingRates[j])
    {
      editingRates[index] := SetPrice(editingRates[index], f, value);
    }

    /** `handleSave`: without a user nothing happens. `upsertOk` is whether the request reached
        the database, `refetched` what the fetch after a successful save returned. */
    method Save(user: Option<User>, upsertOk: bool, refetched: Option<seq<DailyRate>>)
      modifies this
      ensures user.None? ==>
        table == old(table) && isEditing == old(isEditing) && rates == old(rates) && editingRates == old(editingRates)
      ensures var result := Upsert(old(table), UpsertRows(if user.Some? then user.value.username else "", old(selectedDate), old(editingRates[..])));
        if user.Some? && upsertOk && result.Some? then
          table == result.value && !isEditing
          && (refetched.Some? ==> rates == refetched.value && editingRates[..] == refetched.value)
          && (refetched.None? ==> rates == old(rates) && editingRates == old(editingRates))
        else
          table == old(table) && isEditing == old(isEditing) && rates == old(rates) && editingRates == old(editingRates)
      ensures selectedDate == old(selectedDate)
    {
      if user.None? {
        return;
      }
      var rows := UpsertRows(user.value.username, selectedDate, editingRates[..]);
      var result := Upsert(table, rows);
      if !upsertOk || result.None? {
        return;
      }
      table := result.value;
      isEditing := false;
      Fetch(refetched);
    }
  }
}
