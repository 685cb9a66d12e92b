/** The field rules of one CSV inventory row (backend
    inventory/dto/inventory.schema.ts, `inventoryRowSchema`). A row is the
    record the CSV parser produced: column name to cell text. */
module InventorySchema {
  import opened Wrappers
  import opened Text
  import Pricing

  const MerchantIdMax: nat := 10
  const SkuMax: nat := 10
  const TitleMax: nat := 30
  const BrandMax: nat := 20
  const PriceMax: real := 5000.0
  const QuantityMax: int := 200

  /** One parsed CSV record: column name to cell text. */
  type Row = map<string, string>

  /** JavaScript's `parseFloat` and `parseInt(_, 10)`, left uninterpreted;
      `None` stands for NaN. */
  datatype NumberParsers = NumberParsers(parseFloat: string -> Option<real>, parseInt: string -> Option<int>)

  /** A row that passed the schema, with every transformation applied. */
  datatype ParsedRow = ParsedRow(
    merchantId: string,
    sku: string,
    title: string,
    brand: Option<string>,
    category: string,
    condition: string,
    originalPrice: real,
    currency: string,
    quantity: int)

  /** The schema's fields, in declaration order (the order errors are reported in). */
  datatype Field = MerchantId | Sku | Title | Brand | Category | Condition | OriginalPrice | Currency | Quantity

  const AllFields: seq<Field> := [MerchantId, Sku, Title, Brand, Category, Condition, OriginalPrice, Currency, Quantity]

  /** Trimmed text without surrounding whitespace. */
  predicate IsTrimmed(s: string) {
    s != [] ==> !IsWhitespace(s[0]) && !IsWhitespace(s[|s| - 1])
  }

  /** `z.string().trim().min(1).max(max)`: a present cell, trimmed, whose
      JavaScript length (in UTF-16 code units) is 1..max. */
  function BoundedText(row: Row, column: string, max: nat): (r: Option<string>)
    ensures r.Some? <==> column in row && Trim(row[column]) != [] && Utf16Length(Trim(row[column])) <= max
    ensures r.Some? ==> r.value == Trim(row[column]) && IsTrimmed(r.value) && 1 <= Utf16Length(r.value) <= max
  {
    if column in row && 1 <= Utf16Length(Trim(row[column])) <= max then Some(Trim(row[column])) else None
  }

  /** brand: optional; trimmed, at most 20 characters, and an empty value
      becomes null. `None` = invalid, `Some(None)` = null. */
  function BrandValue(row: Row): (r: Option<Option<string>>)
    ensures r.None? <==> "brand" in row && Utf16Length(Trim(row["brand"])) > BrandMax
    ensures r.Some? && r.value.Some? ==>
              "brand" in row && r.value.value == Trim(row["brand"]) && 1 <= Utf16Length(r.value.value) <= BrandMax
    ensures r == Some(None) <==> "brand" !in row || Trim(row["brand"]) == []
  {
    if "brand" !in row then Some(None)
    else
      var b := Trim(row["brand"]);
      if Utf16Length(b) > BrandMax then None
      else if b == [] then Some(None)
      else Some(Some(b))
  }

  /** category: trimmed, and an exact (case-sensitive) valid category. */
  function CategoryValue(row: Row): (r: Option<string>)
    ensures r.Some? <==> "category" in row && Trim(row["category"]) in Pricing.ValidCategories
    ensures r.Some? ==> r.value == Trim(row["category"]) && r.value in Pricing.ValidCategories
  {
    if "category" in row && Trim(row["category"]) in Pricing.ValidCategories then Some(Trim(row["category"]))
    else None
  }

  predicate IsSeparator(c: char) {
    IsWhitespace(c) || c == '-'
  }

  /** condition: trimmed, lower-cased, and every whitespace or '-' replaced
      by '_'. */
  function NormalizeCondition(s: string): (r: string)
    ensures |r| == |Trim(s)|
    ensures NoUpperAscii(r)
    ensures forall i :: 0 <= i < |r| ==> !IsSeparator(r[i])
  {
    ReplaceChars(ToLower(Trim(s)), IsSeparator, '_')
  }

  function ConditionValue(row: Row): (r: Option<string>)
    ensures r.Some? <==> "condition" in row && NormalizeCondition(row["condition"]) in Pricing.ValidConditions
    ensures r.Some? ==> r.value == NormalizeCondition(row["condition"]) && r.value in Pricing.ValidConditions
  {
    if "condition" in row && NormalizeCondition(row["condition"]) in Pricing.ValidConditions then
      Some(NormalizeCondition(row["condition"]))
    else None
  }

  predicate IsPriceNoise(c: char) {
    c == ',' || c == '$' || IsWhitespace(c)
  }

  /** The text `parseFloat` sees: trimmed, then ',', '$' and whitespace removed. */
  function PriceText(s: string): (r: string)
    ensures forall i :: 0 <= i < |r| ==> !IsPriceNoise(r[i])
  {
    RemoveChars(Trim(s), IsPriceNoise)
  }

  /** original_price: a number in (0, 5000]. */
  function PriceValue(row: Row, parsers: NumberParsers): (r: Option<real>)
    ensures r.Some? <==>
              && "original_price" in row
              && parsers.parseFloat(PriceText(row["original_price"])).Some?
              && 0.0 < parsers.parseFloat(PriceText(row["original_price"])).value <= PriceMax
    ensures r.Some? ==> r.value == parsers.parseFloat(PriceText(row["original_price"])).value
    ensures r.Some? ==> 0.0 < r.value <= PriceMax
  {
    if "original_price" !in row then None
    else
      match parsers.parseFloat(PriceText(row["original_price"]))
      case Some(v) => if 0.0 < v <= PriceMax then Some(v) else None
      case None => None
  }

  /** currency: trimmed, upper-cased, exactly three UTF-16 code units. */
  function CurrencyValue(row: Row): (r: Option<string>)
    ensures r.Some? <==> "currency" in row && Utf16Length(Trim(row["currency"])) == 3
    ensures r.Some? ==> r.value == ToUpper(Trim(row["currency"])) && Utf16Length(r.value) == 3
  {
    if "currency" !in row then None
    else
      var c := ToUpper(Trim(row["currency"]));
      ToUpperUtf16Length(Trim(row["currency"]));
      if Utf16Length(c) == 3 then Some(c) else None
  }

  /** quantity: an integer in 1..200. */
  function QuantityValue(row: Row, parsers: NumberParsers): (r: Option<int>)
    ensures r.Some? <==>
              && "quantity" in row
              && parsers.parseInt(Trim(row["quantity"])).Some?
              && 1 <= parsers.parseInt(Trim(row["quantity"])).value <= QuantityMax
    ensures r.Some? ==> r.value == parsers.parseInt(Trim(row["quantity"])).value
    ensures r.Some? ==> 1 <= r.value <= QuantityMax
  {
    if "quantity" !in row then None
    else
      match parsers.parseInt(Trim(row["quantity"]))
      case Some(n) => if 1 <= n <= QuantityMax then Some(n) else None
      case None => None
  }

  /** The outcome of each field rule on one row. */
  datatype FieldChecks = FieldChecks(
    merchantId: bool, sku: bool, title: bool, brand: bool, category: bool,
    condition: bool, price: bool, currency: bool, quantity: bool)
  {
    predicate Ok(f: Field) {
      match f
      case MerchantId => merchantId
      case Sku => sku
      case Title => title
      case Brand => brand
      case Category => category
      case Condition => condition
      case OriginalPrice => price
      case Currency => currency
      case Quantity => quantity
    }

    predicate AllOk() {
      merchantId && sku && title && brand && category && condition && price && currency && quantity
    }
  }

  function Checks(row: Row, parsers: NumberParsers): FieldChecks {
    FieldChecks(
      BoundedText(row, "merchant_id", MerchantIdMax).Some?,
      BoundedText(row, "sku", SkuMax).Some?,
      BoundedText(row, "title", TitleMax).Some?,
      BrandValue(row).Some?,
      CategoryValue(row).Some?,
      ConditionValue(row).Some?,
      PriceValue(row, parsers).Some?,
      CurrencyValue(row).Some?,
      QuantityValue(row, parsers).Some?)
  }

  /** Whether one field of `row` satisfies its rule. */
  predicate FieldOk(row: Row, parsers: NumberParsers, f: Field) {
    Checks(row, parsers).Ok(f)
  }

  /** Every field rule holds. */
  predicate AllFieldsOk(row: Row, parsers: NumberParsers) {
    Checks(row, parsers).AllOk()
  }

  /** The fields whose rule fails, in declaration order. */
  function FailingFields(row: Row, parsers: NumberParsers): (fs: seq<Field>)
    ensures forall f :: f in fs <==> !FieldOk(row, parsers, f)
    ensures fs == [] <==> AllFieldsOk(row, parsers)
  {
    NoFailingFieldIffAllOk(Checks(row, parsers));
    Failing(Checks(row, parsers), AllFields)
  }

  function Failing(c: FieldChecks, fields: seq<Field>): (fs: seq<Field>)
    ensures forall f :: f in fs <==> f in fields && !c.Ok(f)
    ensures fs == [] <==> forall f :: f in fields ==> c.Ok(f)
  {
    if fields == [] then []
    else
      var rest := Failing(c, fields[1..]);
      if c.Ok(fields[0]) then rest else [fields[0]] + rest
  }

  lemma NoFailingFieldIffAllOk(c: FieldChecks)
    ensures Failing(c, AllFields) == [] <==> c.AllOk()
    ensures forall f :: !c.Ok(f) ==> f in Failing(c, AllFields)
  {
    var fs := Failing(c, AllFields);
    forall f | !c.Ok(f)
      ensures f in fs
    {
      assert f in AllFields;
    }
    if !c.AllOk() {
      var f :=
        if !c.merchantId then MerchantId else if !c.sku then Sku else if !c.title then Title
        else if !c.brand then Brand else if !c.category then Category
        else if !c.condition then Condition else if !c.price then OriginalPrice
        else if !c.currency then Currency else Quantity;
      assert !c.Ok(f);
      assert f in fs;
    }
  }

  /** A row the schema accepted satisfies every field rule. */
  predicate WellFormedRow(p: ParsedRow) {
    && 1 <= Utf16Length(p.merchantId) <= MerchantIdMax && IsTrimmed(p.merchantId)
    && 1 <= Utf16Length(p.sku) <= SkuMax && IsTrimmed(p.sku)
    && 1 <= Utf16Length(p.title) <= TitleMax && IsTrimmed(p.title)
    && (p.brand.Some? ==> 1 <= Utf16Length(p.brand.value) <= BrandMax && IsTrimmed(p.brand.value))
    && p.category in Pricing.ValidCategories
    && p.condition in Pricing.ValidConditions
    && 0.0 < p.originalPrice <= PriceMax
    && Utf16Length(p.currency) == 3
    && 1 <= p.quantity <= QuantityMax
  }

  /** The transformed values of a row whose every field passes. */
  function Parse(row: Row, parsers: NumberParsers): (p: ParsedRow)
    requires AllFieldsOk(row, parsers)
    ensures WellFormedRow(p)
    ensures p.merchantId == Trim(row["merchant_id"])
    ensures p.sku == Trim(row["sku"])
    ensures p.title == Trim(row["title"])
    ensures p.category == Trim(row["category"])
    ensures p.condition == NormalizeCondition(row["condition"])
    ensures p.currency == ToUpper(Trim(row["currency"]))
    ensures p.brand == (if "brand" in row && Trim(row["brand"]) != [] then Some(Trim(row["brand"])) else None)
    ensures p.originalPrice == parsers.parseFloat(PriceText(row["original_price"])).value
    ensures p.quantity == parsers.parseInt(Trim(row["quantity"])).value
  {
    var c := Checks(row, parsers);
    assert c.merchantId && c.sku && c.title && c.brand && c.category;
    assert c.condition && c.price && c.currency && c.quantity;
    var merchantId := BoundedText(row, "merchant_id", MerchantIdMax).value;
    var sku := BoundedText(row, "sku", SkuMax).value;
    var title := BoundedText(row, "title", TitleMax).value;
    var brand := BrandValue(row).value;
    var currency := CurrencyValue(row).value;
    assert 1 <= Utf16Length(merchantId) <= MerchantIdMax && IsTrimmed(merchantId) by {
      assert BoundedText(row, "merchant_id", MerchantIdMax).Some?;
    }
    assert 1 <= Utf16Length(sku) <= SkuMax && IsTrimmed(sku) by {
      assert BoundedText(row, "sku", SkuMax).Some?;
    }
    assert 1 <= Utf16Length(title) <= TitleMax && IsTrimmed(title) by {
      assert BoundedText(row, "title", TitleMax).Some?;
    }
    assert brand.Some? ==> 1 <= Utf16Length(brand.value) <= BrandMax && IsTrimmed(brand.value) by {
      assert BrandValue(row).Some?;
    }
    assert Utf16Length(currency) == 3 by {
      assert CurrencyValue(row).Some?;
    }
    ParsedRow(
      merchantId, sku, title, brand,
      CategoryValue(row).value,
      ConditionValue(row).value,
      PriceValue(row, parsers).value,
      currency,
      QuantityValue(row, parsers).value)
  }

  /** `inventoryRowSchema.safeParse(row)`: the parsed row when every field
      passes, otherwise the failing fields. */
  function ValidateRow(row: Row, parsers: NumberParsers): (r: Result<ParsedRow, seq<Field>>)
    ensures r.Success? <==> AllFieldsOk(row, parsers)
    ensures r.Success? ==> r.value == Parse(row, parsers)
    ensures r.Failure? ==> r.error != [] && forall f :: f in r.error <==> !FieldOk(row, parsers, f)
  {
    if AllFieldsOk(row, parsers) then Success(Parse(row, parsers))
    else Failure(FailingFields(row, parsers))
  }

  /** A row passes exactly when no field rule fails. */
  lemma ValidIffNoFailingField(row: Row, parsers: NumberParsers)
    ensures ValidateRow(row, parsers).Success? <==> forall f :: FieldOk(row, parsers, f)
  {
    var fs := FailingFields(row, parsers);
    if !AllFieldsOk(row, parsers) {
      assert fs != [];
      assert !FieldOk(row, parsers, fs[0]);
    }
  }
}
