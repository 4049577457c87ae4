/** The sale entry screen (`src/components/AddSales.tsx`): the form, which fields it demands,
    the row it stores in the sales log, and the submit and field-edit handlers. */
module AddSales {
  import opened Base
  import opened Text
  import opened NumberText

  /** The fields of the form. */
  datatype SalesField =
    | AsofDate | CustomerName | CustomerPhone | TagNo | ItemName | Material | Type
    | PGrams | PPurity | PCost | SPurity | Wastage | SCost | OCost
    | O1Gram | O1Purity | O2Gram | O2Purity

  /** The form: every field holds the text typed into it. */
  datatype SalesForm = SalesForm(
    asof_date: string, customer_name: string, customer_phone: string, tag_no: string,
    item_name: string, material: string, type_: string, p_grams: string, p_purity: string,
    p_cost: string, s_purity: string, wastage: string, s_cost: string, o_cost: string,
    o1_gram: string, o1_purity: string, o2_gram: string, o2_purity: string)

  /** A fresh form: today's date and every other field empty. */
  function EmptyForm(today: string): (r: SalesForm)
    ensures Get(r, AsofDate) == today
    ensures forall f :: f != AsofDate ==> Get(r, f) == ""
  {
    SalesForm(today, "", "", "", "", "", "", "", "", "", "", "", "", "", "", "", "", "")
  }

  /** `formData[field]`. */
  function Get(form: SalesForm, f: SalesField): string
  {
    match f
    case AsofDate => form.asof_date
    case CustomerName => form.customer_name
    case CustomerPhone => form.customer_phone
    case TagNo => form.tag_no
    case ItemName => form.item_name
    case Material => form.material
    case Type => form.type_
    case PGrams => form.p_grams
    case PPurity => form.p_purity
    case PCost => form.p_cost
    case SPurity => form.s_purity
    case Wastage => form.wastage
    case SCost => form.s_cost
    case OCost => form.o_cost
    case O1Gram => form.o1_gram
    case O1Purity => form.o1_purity
    case O2Gram => form.o2_gram
    case O2Purity => form.o2_purity
  }

  /** `{ ...formData, [field]: value }`: the named field takes the value, every other field
      keeps its text. */
  function Set(form: SalesForm, f: SalesField, value: string): (r: SalesForm)
    ensures Get(r, f) == value
    ensures forall g :: g != f ==> Get(r, g) == Get(form, g)
  {
    match f
    case AsofDate => form.(asof_date := value)
    case CustomerName => form.(customer_name := value)
    case CustomerPhone => form.(customer_phone := value)
    case TagNo => form.(tag_no := value)
    case ItemName => form.(item_name := value)
    case Material => form.(material := value)
    case Type => form.(type_ := value)
    case PGrams => form.(p_grams := value)
    case PPurity => form.(p_purity := value)
    case PCost => form.(p_cost := value)
    case SPurity => form.(s_purity := value)
    case Wastage => form.(wastage := value)
    case SCost => form.(s_cost := value)
    case OCost => form.(o_cost := value)
    case O1Gram => form.(o1_gram := value)
    case O1Purity => form.(o1_purity := value)
    case O2Gram => form.(o2_gram := value)
    case O2Purity => form.(o2_purity := value)
  }

  /** Setting a field to the text it already holds changes nothing, and two edits of the same
      field leave only the second. */
  lemma SetIdempotent(form: SalesForm, f: SalesField, v: string, w: string)
    ensures Set(form, f, Get(form, f)) == form
    ensures Set(Set(form, f, v), f, w) == Set(form, f, w)
  {
    var a := Set(form, f, Get(form, f));
    assert forall g :: Get(a, g) == Get(form, g);
    FormsEqual(a, form);
    var b := Set(Set(form, f, v), f, w);
    assert forall g :: Get(b, g) == Get(Set(form, f, w), g);
    FormsEqual(b, Set(form, f, w));
  }

  /** Two forms that agree on every field are the same form. */
  lemma FormsEqual(a: SalesForm, b: SalesForm)
    requires forall g :: Get(a, g) == Get(b, g)
    ensures a == b
  {
    assert Get(a, AsofDate) == Get(b, AsofDate) && Get(a, CustomerName) == Get(b, CustomerName);
    assert Get(a, CustomerPhone) == Get(b, CustomerPhone) && Get(a, TagNo) == Get(b, TagNo);
    assert Get(a, ItemName) == Get(b, ItemName) && Get(a, Material) == Get(b, Material);
    assert Get(a, Type) == Get(b, Type) && Get(a, PGrams) == Get(b, PGrams);
    assert Get(a, PPurity) == Get(b, PPurity) && Get(a, PCost) == Get(b, PCost);
    assert Get(a, SPurity) == Get(b, SPurity) && Get(a, Wastage) == Get(b, Wastage);
    assert Get(a, SCost) == Get(b, SCost) && Get(a, OCost) == Get(b, OCost);
    assert Get(a, O1Gram) == Get(b, O1Gram) && Get(a, O1Purity) == Get(b, O1Purity);
    assert Get(a, O2Gram) == Get(b, O2Gram) && Get(a, O2Purity) == Get(b, O2Purity);
  }

  /** The fields a sale cannot be saved without. */
  const RequiredFields := [CustomerName, CustomerPhone, TagNo, ItemName, Material, Type, PGrams, PPurity, PCost, SCost]

  /** The required fields, one by one. */
  lemma RequiredFieldsFilled(form: SalesForm)
    ensures (forall k :: 0 <= k < |RequiredFields| ==> Get(form, RequiredFields[k]) != "") <==>
      form.customer_name != "" && form.customer_phone != "" && form.tag_no != ""
      && form.item_name != "" && form.material != "" && form.type_ != "" && form.p_grams != ""
      && form.p_purity != "" && form.p_cost != "" && form.s_cost != ""
  {
    if forall k :: 0 <= k < |RequiredFields| ==> Get(form, RequiredFields[k]) != "" {
      assert Get(form, RequiredFields[0]) != "" && Get(form, RequiredFields[1]) != "";
      assert Get(form, RequiredFields[2]) != "" && Get(form, RequiredFields[3]) != "";
      assert Get(form, RequiredFields[4]) != "" && Get(form, RequiredFields[5]) != "";
      assert Get(form, RequiredFields[6]) != "" && Get(form, RequiredFields[7]) != "";
      assert Get(form, RequiredFields[8]) != "" && Get(form, RequiredFields[9]) != "";
    }
  }

  /** The submit guard: a signed-in user and every required field filled. */
  predicate Validate(user: Option<User>, form: SalesForm)
    ensures Validate(user, form) <==> (user.Some?
      && form.customer_name != "" && form.customer_phone != "" && form.tag_no != ""
      && form.item_name != "" && form.material != "" && form.type_ != "" && form.p_grams != ""
      && form.p_purity != "" && form.p_cost != "" && form.s_cost != "")
  {
    RequiredFieldsFilled(form);
    user.Some? && forall k :: 0 <= k < |RequiredFields| ==> Get(form, RequiredFields[k]) != ""
  }

  /** The guard fails exactly when nobody is signed in or some required field is empty; the
      optional fields and the date play no part. */
  lemma ValidateCases(user: Option<User>, form: SalesForm, f: SalesField)
    ensures !Validate(user, form) <==> user.None? || exists k :: 0 <= k < |RequiredFields| && Get(form, RequiredFields[k]) == ""
    ensures f !in RequiredFields ==> forall v :: Validate(user, Set(form, f, v)) == Validate(user, form)
  {
    if f !in RequiredFields {
      forall v ensures Validate(user, Set(form, f, v)) == Validate(user, form) {
        assert forall k :: 0 <= k < |RequiredFields| ==> RequiredFields[k] != f;
      }
    }
  }

  /** A row of the sales log as the screen inserts it. A number that `parseFloat` cannot read is
      NaN, which is stored as null: both are `None`. */
  datatype SalesRow = SalesRow(
    inserted_by: string, asof_date: string, customer_name: string, customer_phone: string,
    tag_no: string, item_name: string, material: string, type_: string,
    p_grams: Option<real>, p_purity: Option<real>, p_cost: real,
    s_purity: Option<real>, wastage: Option<real>, s_cost: real, profit: real,
    o_cost: Option<real>, o1_gram: Option<real>, o1_purity: Option<real>,
    o2_gram: Option<real>, o2_purity: Option<real>)

  /** `x ? parseFloat(x) : null`. */
  function Optional(x: string): Option<real>
  {
    if x == "" then None else ParseFloat(x)
  }

  /** The emptiness test adds nothing: an empty text does not parse anyway. */
  lemma OptionalIsParse(x: string)
    ensures Optional(x) == ParseFloat(x)
  {
  }

  /** `x || null` for a number. */
  function NonZero(x: real): (r: Option<real>)
    ensures r.None? <==> x == 0.0
    ensures r.Some? ==> r.value == x
  {
    if x == 0.0 then None else Some(x)
  }

  /** The stored amount of a cost field: what `parseFloat` reads, or 0. */
  function Amount(x: string): real
  {
    OrZero(ParseFloat(x))
  }

  /** `salesData`: the profit is what the sale brought in above what was paid for the piece and
      allowed for the old gold taken in. */
  function BuildSale(user: User, form: SalesForm): (r: SalesRow)
    ensures r.profit == r.s_cost - r.p_cost - OrZero(r.o_cost)
    ensures r.inserted_by == user.username
  {
    var purchaseCost := Amount(form.p_cost);
    var sellingCost := Amount(form.s_cost);
    var oldCost := Amount(form.o_cost);
    var profit := sellingCost - purchaseCost - oldCost;
    SalesRow(
      user.username, form.asof_date, form.customer_name, form.customer_phone,
      form.tag_no, form.item_name, form.material, form.type_,
      ParseFloat(form.p_grams), ParseFloat(form.p_purity), purchaseCost,
      Optional(form.s_purity), Optional(form.wastage), sellingCost, profit,
      NonZero(oldCost), Optional(form.o1_gram), Optional(form.o1_purity),
      Optional(form.o2_gram), Optional(form.o2_purity))
  }

  /** The stored row: the costs are what `parseFloat` reads from their fields, or 0; its profit
      is the selling cost less the purchase and old costs; the old cost is null exactly when it
      reads as 0 and otherwise holds that amount; the user and the text fields are copied; every
      measured field holds what `parseFloat` reads from it, so an empty optional field is stored
      as null and a filled one as its number (null when it does not parse). */
  lemma SaleRowFacts(user: User, form: SalesForm, r: SalesRow)
    requires r == BuildSale(user, form)
    ensures r.p_cost == Amount(form.p_cost) && r.s_cost == Amount(form.s_cost)
    ensures r.profit == r.s_cost - r.p_cost - OrZero(r.o_cost)
    ensures r.profit == Amount(form.s_cost) - Amount(form.p_cost) - Amount(form.o_cost)
    ensures r.o_cost.None? <==> Amount(form.o_cost) == 0.0
    ensures r.o_cost.Some? ==> r.o_cost.value == Amount(form.o_cost)
    ensures r.p_grams == ParseFloat(form.p_grams) && r.p_purity == ParseFloat(form.p_purity)
    ensures r.s_purity == ParseFloat(form.s_purity) && r.wastage == ParseFloat(form.wastage)
    ensures r.o1_gram == ParseFloat(form.o1_gram) && r.o1_purity == ParseFloat(form.o1_purity)
    ensures r.o2_gram == ParseFloat(form.o2_gram) && r.o2_purity == ParseFloat(form.o2_purity)
    ensures r.inserted_by == user.username
    ensures r.asof_date == form.asof_date && r.customer_name == form.customer_name
      && r.customer_phone == form.customer_phone && r.tag_no == form.tag_no
      && r.item_name == form.item_name && r.material == form.material && r.type_ == form.type_
    ensures form.s_purity == "" ==> r.s_purity.None?
    ensures form.wastage == "" ==> r.wastage.None?
    ensures form.o1_gram == "" ==> r.o1_gram.None?
    ensures form.o1_purity == "" ==> r.o1_purity.None?
    ensures form.o2_gram == "" ==> r.o2_gram.None?
    ensures form.o2_purity == "" ==> r.o2_purity.None?
  {
    OptionalIsParse(form.s_purity);
    OptionalIsParse(form.wastage);
    OptionalIsParse(form.o1_gram);
    OptionalIsParse(form.o1_purity);
    OptionalIsParse(form.o2_gram);
    OptionalIsParse(form.o2_purity);
  }

  /** A whole number of rupees typed as digits is stored as that amount. */
  lemma AmountOfNat(n: nat)
    ensures Amount(NatToString(n)) == n as real
  {
    ParseFloatOfNatToString(n, "");
    assert NatToString(n) + "" == NatToString(n);
  }

  /** Whole-rupee costs typed as digits are stored as those amounts, and the profit is their
      difference. */
  lemma WholeRupeeProfit(user: User, form: SalesForm, p: nat, s: nat, o: nat, r: SalesRow)
    requires form.p_cost == NatToString(p) && form.s_cost == NatToString(s) && form.o_cost == NatToString(o)
    requires r == BuildSale(user, form)
    ensures r.profit == s as real - p as real - o as real
    ensures r.o_cost == (if o == 0 then None else Some(o as real))
    ensures r.p_cost == p as real && r.s_cost == s as real
  {
    AmountOfNat(p);
    AmountOfNat(s);
    AmountOfNat(o);
  }

  /** The screen's state: the form, the busy flag, the sales log it writes to and whether it
      has moved on to the dashboard. */
  class AddSalesScreen {
    var form: SalesForm
    var isLoading: bool
    var log: seq<SalesRow>
    var navigated: bool

    constructor(today: string, log0: seq<SalesRow>)
      ensures form == EmptyForm(today) && !isLoading && log == log0 && !navigated
    {
      form := EmptyForm(today);
      isLoading := false;
      log := log0;
      navigated := false;
    }

    /** `handleInputChange`. */
    method HandleInputChange(f: SalesField, value: string)
      modifies this
      ensures form == Set(old(form), f, value)
      ensures isLoading == old(isLoading) && log == old(log) && navigated == old(navigated)
    {
      form := Set(form, f, value);
    }

    /** `handleSubmit`. `insertOk` is whether the database accepted the row. */
    method HandleSubmit(user: Option<User>, insertOk: bool)
      modifies this
      ensures form == old(form)
      ensures !Validate(user, old(form)) ==>
        log == old(log) && isLoading == old(isLoading) && navigated == old(navigated)
      ensures Validate(user, old(form)) ==> !isLoading
      ensures Validate(user, old(form)) && insertOk ==>
        log == old(log) + [BuildSale(user.value, old(form))] && navigated
      ensures Validate(user, old(form)) && !insertOk ==>
        log == old(log) && navigated == old(navigated)
    {
      var ok := Validate(user, form);
      if !ok {
        return;
      }
      isLoading := true;
      if insertOk {
        log := log + [BuildSale(user.value, form)];
        navigated := true;
      }
      isLoading := false;
    }
  }
}
