/** The expense entry screen (`src/components/AddExpense.tsx`): the form, the submit guard, the
    duplicate rule on (date, type, item), the row it stores in the expense log, the form reset
    after a save, and the field-edit handler. The expense log is a sequence of rows. */
module AddExpense {
  import opened Base
  import opened NumberText

  /** The form: four texts and the credit (`udhaar`) check box. */
  datatype ExpenseForm = ExpenseForm(asof_date: string, expense_type: string, item_name: string, cost: string, udhaar: bool)

  /** The text fields of the form. */
  datatype TextField = AsofDate | ExpenseType | ItemName | Cost

  /** A fresh form: today's date, every text empty, not on credit. */
  function EmptyForm(today: string): (r: ExpenseForm)
    ensures r.asof_date == today && Filled(r) == false && !r.udhaar
  {
    ExpenseForm(today, "", "", "", false)
  }

  function Get(form: ExpenseForm, f: TextField): string
  {
    match f
    case AsofDate => form.asof_date
    case ExpenseType => form.expense_type
    case ItemName => form.item_name
    case Cost => form.cost
  }

  /** `{ ...prev, [field]: value }`: the named field takes the value, every other field and the
      check box keep theirs. */
  function Set(form: ExpenseForm, f: TextField, value: string): (r: ExpenseForm)
    ensures Get(r, f) == value
    ensures forall g :: g != f ==> Get(r, g) == Get(form, g)
    ensures r.udhaar == form.udhaar
  {
    match f
    case AsofDate => form.(asof_date := value)
    case ExpenseType => form.(expense_type := value)
    case ItemName => form.(item_name := value)
    case Cost => form.(cost := value)
  }

  /** The text fields, one by one. */
  lemma TextFieldsFilled(form: ExpenseForm)
    ensures (forall f :: Get(form, f) != "") <==>
      form.asof_date != "" && form.expense_type != "" && form.item_name != "" && form.cost != ""
  {
    if form.asof_date != "" && form.expense_type != "" && form.item_name != "" && form.cost != "" {
      forall f ensures Get(form, f) != "" {
        match f
        case AsofDate =>
        case ExpenseType =>
        case ItemName =>
        case Cost =>
      }
    } else {
      assert Get(form, AsofDate) == "" || Get(form, ExpenseType) == "" || Get(form, ItemName) == "" || Get(form, Cost) == "";
    }
  }

  /** The form check of the submit: every text filled. */
  predicate Filled(form: ExpenseForm)
    ensures Filled(form) <==> forall f :: Get(form, f) != ""
  {
    TextFieldsFilled(form);
    form.asof_date != "" && form.expense_type != "" && form.item_name != "" && form.cost != ""
  }

  /** The form after a save: the date and nothing else kept. */
  function Cleared(form: ExpenseForm): (r: ExpenseForm)
    ensures r.asof_date == form.asof_date
    ensures r.expense_type == "" && r.item_name == "" && r.cost == "" && !r.udhaar
    ensures !Filled(r)
  {
    form.(expense_type := "", item_name := "", cost := "", udhaar := false)
  }

  /** A row of the expense log. A cost `parseFloat` cannot read is NaN, stored as null: `None`. */
  datatype ExpenseRow = ExpenseRow(inserted_by: string, asof_date: string, expense_type: string, item_name: string, cost: Option<real>, udhaar: bool)

  /** The triple the duplicate rule compares. */
  datatype ExpenseKey = ExpenseKey(asof_date: string, expense_type: string, item_name: string)

  function KeyOf(row: ExpenseRow): ExpenseKey
  {
    ExpenseKey(row.asof_date, row.expense_type, row.item_name)
  }

  function FormKey(form: ExpenseForm): ExpenseKey
  {
    ExpenseKey(form.asof_date, form.expense_type, form.item_name)
  }

  /** `expenseData`. */
  function BuildExpense(user: User, form: ExpenseForm): (r: ExpenseRow)
    ensures r.inserted_by == user.username && r.udhaar == form.udhaar
    ensures r.cost == ParseFloat(form.cost)
    ensures KeyOf(r) == FormKey(form)
  {
    ExpenseRow(user.username, form.asof_date, form.expense_type, form.item_name, ParseFloat(form.cost), form.udhaar)
  }

  /** The rows the duplicate query selects: those with the given triple, in log order. */
  function Matches(log: seq<ExpenseRow>, key: ExpenseKey): (r: seq<ExpenseRow>)
    ensures |r| <= |log|
    ensures forall i :: 0 <= i < |r| ==> KeyOf(r[i]) == key
  {
    if |log| == 0 then []
    else (if KeyOf(log[0]) == key then [log[0]] else []) + Matches(log[1..], key)
  }

  /** `checkDuplicateExpense`: the query ends in `.single()`, which yields a row only when exactly
      one row matches and otherwise the "not exactly one row" error PGRST116, which the check
      passes over; the result is the `inserted_by` of the one matching row, or nothing. */
  function DuplicateLookup(log: seq<ExpenseRow>, key: ExpenseKey): (r: Option<string>)
    ensures r.Some? <==> |Matches(log, key)| == 1
    ensures r.Some? ==> exists i :: 0 <= i < |log| && KeyOf(log[i]) == key && log[i].inserted_by == r.value
  {
    var m := Matches(log, key);
    if |m| == 1 then
      MatchIsInLog(log, key, 0);
      Some(m[0].inserted_by)
    else None
  }

  /** Every match is a row of the log. */
  lemma {:induction false} MatchIsInLog(log: seq<ExpenseRow>, key: ExpenseKey, k: nat)
    requires k < |Matches(log, key)|
    ensures exists i :: 0 <= i < |log| && log[i] == Matches(log, key)[k]
  {
    var head: seq<ExpenseRow> := if KeyOf(log[0]) == key then [log[0]] else [];
    if k < |head| {
      assert Matches(log, key)[k] == log[0];
    } else {
      MatchIsInLog(log[1..], key, k - |head|);
      var i :| 0 <= i < |log[1..]| && log[1..][i] == Matches(log[1..], key)[k - |head|];
      assert log[i + 1] == Matches(log, key)[k];
    }
  }

  /** No row of the log matches exactly when the query selects nothing. */
  lemma {:induction false} MatchesEmpty(log: seq<ExpenseRow>, key: ExpenseKey)
    ensures Matches(log, key) == [] <==> forall i :: 0 <= i < |log| ==> KeyOf(log[i]) != key
  {
    if |log| > 0 {
      MatchesEmpty(log[1..], key);
      assert forall i :: 1 <= i < |log| ==> log[i] == log[1..][i - 1];
    }
  }

  /** No two rows of the log share a triple. */
  predicate NoDuplicates(log: seq<ExpenseRow>)
  {
    forall i, j :: 0 <= i < j < |log| ==> KeyOf(log[i]) != KeyOf(log[j])
  }

  /** In a log without duplicate triples the query selects at most one row. */
  lemma {:induction false} AtMostOneMatch(log: seq<ExpenseRow>, key: ExpenseKey)
    requires NoDuplicates(log)
    ensures |Matches(log, key)| <= 1
  {
    if |log| > 0 {
      AtMostOneMatch(log[1..], key);
      if KeyOf(log[0]) == key {
        assert forall i :: 0 <= i < |log[1..]| ==> KeyOf(log[1..][i]) != key by {
          forall i | 0 <= i < |log[1..]| ensures KeyOf(log[1..][i]) != key {
            assert log[1..][i] == log[i + 1];
          }
        }
        MatchesEmpty(log[1..], key);
      }
    }
  }

  /** While the log has no duplicate triples, the check finds an entry exactly when one with the
      same triple is logged, and names who entered it. */
  lemma LookupExactWithoutDuplicates(log: seq<ExpenseRow>, key: ExpenseKey)
    requires NoDuplicates(log)
    ensures DuplicateLookup(log, key).Some? <==> exists i :: 0 <= i < |log| && KeyOf(log[i]) == key
    ensures forall i :: 0 <= i < |log| && KeyOf(log[i]) == key ==> DuplicateLookup(log, key) == Some(log[i].inserted_by)
  {
    AtMostOneMatch(log, key);
    MatchesEmpty(log, key);
    if |Matches(log, key)| == 1 {
      forall i | 0 <= i < |log| && KeyOf(log[i]) == key ensures DuplicateLookup(log, key) == Some(log[i].inserted_by) {
        var j :| 0 <= j < |log| && KeyOf(log[j]) == key && log[j].inserted_by == DuplicateLookup(log, key).value;
        assert i == j;
      }
    }
  }

  /** Once two rows share a triple, the check no longer sees either: `.single()` fails on two
      rows just as on none. */
  lemma RepeatedEntryNotSeen(log: seq<ExpenseRow>, key: ExpenseKey, i: nat, j: nat)
    requires i < j < |log| && KeyOf(log[i]) == key && KeyOf(log[j]) == key
    ensures DuplicateLookup(log, key).None?
  {
    MatchesOfTwo(log, key, i, j);
  }

  lemma {:induction false} MatchesOfTwo(log: seq<ExpenseRow>, key: ExpenseKey, i: nat, j: nat)
    requires i < j < |log| && KeyOf(log[i]) == key && KeyOf(log[j]) == key
    ensures |Matches(log, key)| >= 2
    decreases i
  {
    if i > 0 {
      assert log[1..][i - 1] == log[i] && log[1..][j - 1] == log[j];
      MatchesOfTwo(log[1..], key, i - 1, j - 1);
    } else {
      MatchesOfOne(log[1..], key, j - 1);
    }
  }

  lemma {:induction false} MatchesOfOne(log: seq<ExpenseRow>, key: ExpenseKey, j: nat)
    requires j < |log| && KeyOf(log[j]) == key
    ensures |Matches(log, key)| >= 1
    decreases j
  {
    if j > 0 {
      assert log[1..][j - 1] == log[j];
      MatchesOfOne(log[1..], key, j - 1);
    }
  }

  /** Appending a row the check let through keeps the log free of duplicate triples. */
  lemma InsertKeepsNoDuplicates(log: seq<ExpenseRow>, row: ExpenseRow)
    requires NoDuplicates(log) && DuplicateLookup(log, KeyOf(row)).None?
    ensures NoDuplicates(log + [row])
  {
    AtMostOneMatch(log, KeyOf(row));
    MatchesEmpty(log, KeyOf(row));
    var l := log + [row];
    forall i, j | 0 <= i < j < |l| ensures KeyOf(l[i]) != KeyOf(l[j]) {
      if j == |log| {
        assert l[i] == log[i];
      } else {
        assert l[i] == log[i] && l[j] == log[j];
      }
    }
  }

  /** How a submit ended: the toast it shows. */
  datatype Outcome =
    | NotAuthenticated
    | Incomplete
    | Duplicate(enteredBy: string)
    | Failed
    | Added

  /** The screen's state: the form, the busy flag and the expense log it writes to. */
  class AddExpenseScreen {
    var form: ExpenseForm
    var isLoading: bool
    var log: seq<ExpenseRow>

    constructor(today: string, log0: seq<ExpenseRow>)
      ensures form == EmptyForm(today) && !isLoading && log == log0
    {
      form := EmptyForm(today);
      isLoading := false;
      log := log0;
    }

    /** `handleInputChange` on a text field. */
    method HandleInputChange(f: TextField, value: string)
      modifies this
      ensures form == Set(old(form), f, value)
      ensures isLoading == old(isLoading) && log == old(log)
    {
      form := Set(form, f, value);
    }

    /** `handleInputChange('udhaar', checked)`: the check box passes its state. */
    method HandleUdhaarChange(checked: bool)
      modifies this
      ensures form == old(form).(udhaar := checked)
      ensures isLoading == old(isLoading) && log == old(log)
    {
      form := form.(udhaar := checked);
    }

    /** `handleSubmit`. `lookupOk` is whether the duplicate query returned without an error
        other than PGRST116, `insertOk` whether the database accepted the row. */
    method HandleSubmit(user: Option<User>, lookupOk: bool, insertOk: bool) returns (outcome: Outcome)
      modifies this
      ensures user.None? ==> outcome == NotAuthenticated
      ensures user.Some? && !Filled(old(form)) ==> outcome == Incomplete
      ensures outcome == NotAuthenticated || outcome == Incomplete ==>
        form == old(form) && isLoading == old(isLoading) && log == old(log)
      ensures user.Some? && Filled(old(form)) ==> !isLoading
      ensures user.Some? && Filled(old(form)) && lookupOk ==>
        var dup := DuplicateLookup(old(log), FormKey(old(form)));
        (dup.Some? ==> outcome == Duplicate(dup.value))
        && (dup.None? && insertOk ==> outcome == Added)
      ensures (user.Some? && Filled(old(form))
        && (!lookupOk || (DuplicateLookup(old(log), FormKey(old(form))).None? && !insertOk))) ==>
        outcome == Failed
      ensures outcome == Added ==>
        user.Some? && log == old(log) + [BuildExpense(user.value, old(form))] && form == Cleared(old(form))
      ensures outcome != Added ==> log == old(log)
      ensures outcome != Added ==> form == old(form)
      ensures NoDuplicates(old(log)) ==> NoDuplicates(log)
    {
      if user.None? {
        return NotAuthenticated;
      }
      if !Filled(form) {
        return Incomplete;
      }
      isLoading := true;
      if !lookupOk {
        isLoading := false;
        return Failed;
      }
      var dup := DuplicateLookup(log, FormKey(form));
      if dup.Some? {
        isLoading := false;
        return Duplicate(dup.value);
      }
      if !insertOk {
        isLoading := false;
        return Failed;
      }
      var row := BuildExpense(user.value, form);
      if NoDuplicates(log) {
        InsertKeepsNoDuplicates(log, row);
      }
      log := log + [row];
      form := Cleared(form);
      isLoading := false;
      outcome := Added;
    }
  }
}
