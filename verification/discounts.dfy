/** The discount catalog and its validator (backend
    common/constants/discounts.constants.ts): a code is normalised, looked
    up, checked for activity, expiry and minimum order in that order, and
    turned into an amount that is capped, clamped to the subtotal and
    rounded to cents. `ApplyDiscount` is the lenient wrapper checkout uses:
    a bad code yields no discount instead of an error. */
module Discounts {
  import opened Wrappers
  import opened Money
  import opened Text
  import opened Clock

  datatype DiscountType = Percentage | Fixed

  /** A catalog entry. `value` is a percentage (0-100) or a fixed amount. */
  datatype Discount = Discount(
    code: string,
    description: string,
    kind: DiscountType,
    value: real,
    minOrderAmount: Option<real>,
    maxDiscount: Option<real>,
    expiresAt: Option<Instant>,
    isActive: bool)

  /** An optional amount used as a JavaScript condition: set and non-zero. */
  predicate IsSetAmount(x: Option<real>) {
    x.Some? && x.value != 0.0
  }

  const Welcome10 := Discount("WELCOME10", "10% off your first order", Percentage, 10.0, None, None, None, true)
  const Save50 := Discount("SAVE50", "R50 off orders over R500", Fixed, 50.0, Some(500.0), None, None, true)
  const Vip20 := Discount("VIP20", "20% off (max R200)", Percentage, 20.0, None, Some(200.0), None, true)
  const ExpiredCode := Discount("EXPIRED", "Expired discount", Percentage, 15.0, None, None, Some(Midnight(2025, 12, 31)), true)
  const InactiveCode := Discount("INACTIVE", "Inactive discount", Percentage, 25.0, None, None, None, false)

  /** `DISCOUNTS`: the entries, each filed under its own (upper-case) code. */
  const Catalog: seq<Discount> := [Welcome10, Save50, Vip20, ExpiredCode, InactiveCode]

  /** The entry filed under `key`, if any. */
  function Find(entries: seq<Discount>, key: string): (r: Option<Discount>)
    ensures r.None? <==> forall i :: 0 <= i < |entries| ==> entries[i].code != key
    ensures r.Some? ==> r.value.code == key
  {
    if entries == [] then None
    else if entries[0].code == key then Some(entries[0])
    else
      assert forall i :: 0 <= i < |entries[1..]| ==> entries[1..][i] == entries[i + 1];
      Find(entries[1..], key)
  }

  /** What `Find` returns is one of the entries. */
  lemma {:induction false} FindIsEntry(entries: seq<Discount>, key: string)
    ensures Find(entries, key).Some? ==> Find(entries, key).value in entries
  {
    if entries != [] && entries[0].code != key {
      FindIsEntry(entries[1..], key);
    }
  }

  /** `DISCOUNTS[key]`. */
  function Lookup(key: string): Option<Discount> {
    Find(Catalog, key)
  }

  /** Why a code was refused. */
  datatype Rejection = UnknownCode | NoLongerActive | HasExpired | BelowMinimum(minimum: real)

  datatype Validated = Validated(discount: Discount, amount: real)

  /** `code.trim().toUpperCase()`. */
  function NormalizeCode(code: string): (key: string)
    ensures NoUpperAsciiLower(key)
    ensures |key| <= |code|
  {
    ToUpper(Trim(code))
  }

  /** No lower-case ASCII letter in `s`. */
  predicate NoUpperAsciiLower(s: string) {
    forall i :: 0 <= i < |s| ==> !IsLowerAscii(s[i])
  }

  /** The amount before clamping: a percentage of the subtotal, capped at a
      set `maxDiscount`, or the fixed value. */
  function RawAmount(d: Discount, subtotal: real): (raw: real)
    ensures d.kind == Fixed ==> raw == d.value
    ensures d.kind == Percentage && IsSetAmount(d.maxDiscount) ==> raw <= d.maxDiscount.value
  {
    match d.kind
    case Percentage =>
      var p := subtotal * d.value / 100.0;
      if IsSetAmount(d.maxDiscount) && p > d.maxDiscount.value then d.maxDiscount.value else p
    case Fixed => d.value
  }

  /** A percentage discount is `value` percent of the subtotal, or the cap
      when the cap is set and smaller. */
  lemma RawAmountPercentage(d: Discount, subtotal: real)
    requires d.kind == Percentage
    ensures RawAmount(d, subtotal) <= subtotal * d.value / 100.0
    ensures !IsSetAmount(d.maxDiscount) ==> RawAmount(d, subtotal) == subtotal * d.value / 100.0
    ensures IsSetAmount(d.maxDiscount) ==>
              RawAmount(d, subtotal) == subtotal * d.value / 100.0 || RawAmount(d, subtotal) == d.maxDiscount.value
  {
  }

  /** The discount amount: the raw amount clamped to the subtotal, then
      rounded to cents. */
  function DiscountAmount(d: Discount, subtotal: real): real
  {
    var raw := RawAmount(d, subtotal);
    var clamped := if raw > subtotal then subtotal else raw;
    Round2(clamped)
  }

  /** The amount is in whole cents and never above the subtotal rounded to
      cents; below the subtotal it is the raw amount rounded. */
  lemma DiscountAmountClamped(d: Discount, subtotal: real)
    ensures IsCents(DiscountAmount(d, subtotal))
    ensures DiscountAmount(d, subtotal) <= Round2(subtotal)
    ensures RawAmount(d, subtotal) <= subtotal ==> DiscountAmount(d, subtotal) == Round2(RawAmount(d, subtotal))
    ensures RawAmount(d, subtotal) > subtotal ==> DiscountAmount(d, subtotal) == Round2(subtotal)
  {
    var raw := RawAmount(d, subtotal);
    Round2Monotone(if raw > subtotal then subtotal else raw, subtotal);
  }

  /** The checks of `validateDiscount` after the lookup, in order:
      active, not expired (`now > expiresAt`), minimum order reached. */
  function CheckDiscount(d: Discount, subtotal: real, now: Instant): (r: Result<real, Rejection>)
    ensures r == Failure(NoLongerActive) <==> !d.isActive
    ensures r == Failure(HasExpired) <==> d.isActive && d.expiresAt.Some? && After(now, d.expiresAt.value)
    ensures r.Failure? && r.error.BelowMinimum? <==>
              && d.isActive && !(d.expiresAt.Some? && After(now, d.expiresAt.value))
              && IsSetAmount(d.minOrderAmount) && subtotal < d.minOrderAmount.value
    ensures r.Failure? ==> r.error != UnknownCode
  {
    if !d.isActive then Failure(NoLongerActive)
    else if d.expiresAt.Some? && After(now, d.expiresAt.value) then Failure(HasExpired)
    else if IsSetAmount(d.minOrderAmount) && subtotal < d.minOrderAmount.value then
      Failure(BelowMinimum(d.minOrderAmount.value))
    else Success(DiscountAmount(d, subtotal))
  }

  /** `validateDiscount(code, subtotal)` at time `now`: the code is
      normalised, then looked up and checked. */
  function ValidateDiscount(code: string, subtotal: real, now: Instant): Result<Validated, Rejection> {
    ValidateKey(NormalizeCode(code), subtotal, now)
  }

  /** The lookup and the checks of `validateDiscount` on a normalised key:
      an unknown key is refused first, then the first failing check
      decides. */
  function ValidateKey(key: string, subtotal: real, now: Instant): (r: Result<Validated, Rejection>)
    ensures r == Failure(UnknownCode) <==> Lookup(key).None?
    ensures r.Success? ==>
              && Lookup(key) == Some(r.value.discount)
              && CheckDiscount(r.value.discount, subtotal, now) == Success(r.value.amount)
    ensures r.Failure? && r.error != UnknownCode ==>
              && Lookup(key).Some?
              && CheckDiscount(Lookup(key).value, subtotal, now) == Failure(r.error)
  {
    match Lookup(key)
    case None => Failure(UnknownCode)
    case Some(d) =>
      match CheckDiscount(d, subtotal, now)
      case Failure(e) => Failure(e)
      case Success(amount) => Success(Validated(d, amount))
  }

  /** What checkout records: `discountCode` is `None` when no discount applies. */
  datatype Pricing = Pricing(
    subtotal: real,
    discountCode: Option<string>,
    discountAmount: real,
    total: real,
    description: Option<string>)

  /** `applyDiscount(subtotal, code)`: never fails. A missing or empty code,
      or one `ValidateDiscount` refuses, gives no discount; a valid one gives
      the canonical code, its amount and `round2(subtotal - amount)`. */
  function ApplyDiscount(subtotal: real, code: Option<string>, now: Instant): (p: Pricing)
    ensures p.subtotal == subtotal
    ensures p.discountCode.None? ==> p == Pricing(subtotal, None, 0.0, subtotal, None)
  {
    if code.None? || code.value == [] then Pricing(subtotal, None, 0.0, subtotal, None)
    else Priced(subtotal, ValidateDiscount(code.value, subtotal, now))
  }

  /** The pricing for a validation's outcome: a refusal is no discount. */
  function Priced(subtotal: real, r: Result<Validated, Rejection>): Pricing {
    match r
    case Failure(_) => Pricing(subtotal, None, 0.0, subtotal, None)
    case Success(v) =>
      Pricing(subtotal, Some(v.discount.code), v.amount, Round2(subtotal - v.amount), Some(v.discount.description))
  }

  /** A discount is applied exactly when a non-empty code passes
      `validateDiscount`, and then it is that validation's discount and
      amount. */
  lemma ApplyDiscountFollowsValidation(subtotal: real, code: Option<string>, now: Instant)
    ensures var p := ApplyDiscount(subtotal, code, now);
            p.discountCode.Some? <==> code.Some? && code.value != [] && ValidateDiscount(code.value, subtotal, now).Success?
    ensures var p := ApplyDiscount(subtotal, code, now);
            p.discountCode.Some? ==>
              var v := ValidateDiscount(code.value, subtotal, now).value;
              && p.discountCode == Some(v.discount.code)
              && p.discountAmount == v.amount
              && p.total == Round2(subtotal - v.amount)
              && p.description == Some(v.discount.description)
  {
  }

  /** The catalog files each code once, in upper case, and every entry is
      a non-negative offer with non-negative thresholds. */
  lemma CatalogWellFormed()
    ensures forall i, j :: 0 <= i < j < |Catalog| ==> Catalog[i].code != Catalog[j].code
    ensures forall i :: 0 <= i < |Catalog| ==> NoUpperAsciiLower(Catalog[i].code)
    ensures forall d :: d in Catalog ==> WellFormed(d)
  {
  }

  /** Each code of the catalog finds its own entry. */
  lemma CatalogEntries()
    ensures Lookup("WELCOME10") == Some(Welcome10)
    ensures Lookup("SAVE50") == Some(Save50)
    ensures Lookup("VIP20") == Some(Vip20)
    ensures Lookup("EXPIRED") == Some(ExpiredCode)
    ensures Lookup("INACTIVE") == Some(InactiveCode)
  {
    var c1 := [Save50, Vip20, ExpiredCode, InactiveCode];
    var c2 := [Vip20, ExpiredCode, InactiveCode];
    var c3 := [ExpiredCode, InactiveCode];
    var c4 := [InactiveCode];
    assert Catalog[1..] == c1 && c1[1..] == c2 && c2[1..] == c3 && c3[1..] == c4;
    assert Find(c4, "INACTIVE") == Some(InactiveCode);
    assert Find(c3, "EXPIRED") == Some(ExpiredCode);
    assert Find(c3, "INACTIVE") == Some(InactiveCode);
    assert Find(c2, "VIP20") == Some(Vip20);
    assert Find(c2, "EXPIRED") == Some(ExpiredCode);
    assert Find(c2, "INACTIVE") == Some(InactiveCode);
    assert Find(c1, "SAVE50") == Some(Save50);
    assert Find(c1, "VIP20") == Some(Vip20);
    assert Find(c1, "EXPIRED") == Some(ExpiredCode);
    assert Find(c1, "INACTIVE") == Some(InactiveCode);
  }

  /** A looked-up entry is filed under the key it was looked up by. */
  lemma LookupByCode(key: string)
    ensures Lookup(key).Some? ==> Lookup(key).value.code == key && WellFormed(Lookup(key).value)
    ensures Lookup(key).None? <==> forall i :: 0 <= i < |Catalog| ==> Catalog[i].code != key
  {
    CatalogWellFormed();
    FindIsEntry(Catalog, key);
  }

  /** The code checkout records is the catalog's canonical code, whatever
      spacing and case the buyer typed. */
  lemma AppliedCodeIsCatalogued(subtotal: real, code: Option<string>, now: Instant)
    ensures var p := ApplyDiscount(subtotal, code, now);
            p.discountCode.Some? ==>
              && Lookup(p.discountCode.value).Some?
              && p.discountCode.value == NormalizeCode(code.value)
  {
    if code.Some? {
      LookupByCode(NormalizeCode(code.value));
    }
  }

  predicate WellFormed(d: Discount) {
    && d.value >= 0.0
    && (d.maxDiscount.Some? ==> d.maxDiscount.value >= 0.0)
    && (d.minOrderAmount.Some? ==> d.minOrderAmount.value >= 0.0)
  }

  /** A valid discount never takes more than the subtotal: for a
      non-negative subtotal in whole cents, the amount lies in
      [0, subtotal]. */
  lemma AmountWithinSubtotal(d: Discount, subtotal: real)
    requires WellFormed(d)
    requires subtotal >= 0.0 && IsCents(subtotal)
    ensures 0.0 <= DiscountAmount(d, subtotal) <= subtotal
  {
    var raw := RawAmount(d, subtotal);
    if d.kind == Percentage {
      RawAmountPercentage(d, subtotal);
      assert subtotal * d.value >= 0.0;
    }
    assert raw >= 0.0;
    var clamped := if raw > subtotal then subtotal else raw;
    assert DiscountAmount(d, subtotal) == Round2(clamped);
    Round2Monotone(0.0, clamped);
    Round2Monotone(clamped, subtotal);
    Round2OfCents(0.0);
    Round2OfCents(subtotal);
  }

  /** The pricing checkout records, for a non-negative subtotal in whole
      cents: total = subtotal - discountAmount, and 0 <= total <= subtotal. */
  lemma ApplyDiscountTotals(subtotal: real, code: Option<string>, now: Instant)
    requires subtotal >= 0.0 && IsCents(subtotal)
    ensures var p := ApplyDiscount(subtotal, code, now);
            && p.total == p.subtotal - p.discountAmount
            && 0.0 <= p.discountAmount <= p.subtotal
            && 0.0 <= p.total <= p.subtotal
            && IsCents(p.total)
  {
    if code.Some? && code.value != [] {
      var r := ValidateKey(NormalizeCode(code.value), subtotal, now);
      KeyAmount(NormalizeCode(code.value), subtotal, now);
      PricedTotals(subtotal, r);
    }
  }

  /** The pricing of a validation outcome whose amount is a well-formed
      entry's discount keeps total = subtotal - amount within [0, subtotal]. */
  lemma PricedTotals(subtotal: real, r: Result<Validated, Rejection>)
    requires subtotal >= 0.0 && IsCents(subtotal)
    requires r.Success? ==> WellFormed(r.value.discount) && r.value.amount == DiscountAmount(r.value.discount, subtotal)
    ensures var p := Priced(subtotal, r);
            && p.total == p.subtotal - p.discountAmount
            && 0.0 <= p.discountAmount <= p.subtotal
            && 0.0 <= p.total <= p.subtotal
            && IsCents(p.total)
  {
    if r.Success? {
      var v := r.value;
      AmountWithinSubtotal(v.discount, subtotal);
      DiscountAmountClamped(v.discount, subtotal);
      CentsClosed(subtotal, v.amount);
      Round2OfCents(subtotal - v.amount);
    } else {
      assert Priced(subtotal, r) == Pricing(subtotal, None, 0.0, subtotal, None);
    }
  }

  /** A key that passes validation names a well-formed catalog entry, and
      its amount is that entry's clamped, rounded discount. */
  lemma KeyAmount(key: string, subtotal: real, now: Instant)
    ensures var r := ValidateKey(key, subtotal, now);
            r.Success? ==> WellFormed(r.value.discount) && r.value.amount == DiscountAmount(r.value.discount, subtotal)
  {
    LookupByCode(key);
  }

  /** A code that passes validation is a well-formed catalog entry, and its
      amount is that entry's clamped, rounded discount. */
  lemma ValidatedAmount(code: string, subtotal: real, now: Instant)
    requires ValidateDiscount(code, subtotal, now).Success?
    ensures var v := ValidateDiscount(code, subtotal, now).value;
            WellFormed(v.discount) && v.amount == DiscountAmount(v.discount, subtotal)
  {
    KeyAmount(NormalizeCode(code), subtotal, now);
  }

  /** Without the whole-cents premise the total still never goes negative. */
  lemma ApplyDiscountTotalNonNegative(subtotal: real, code: Option<string>, now: Instant)
    requires subtotal >= 0.0
    ensures ApplyDiscount(subtotal, code, now).total >= 0.0
  {
    var p := ApplyDiscount(subtotal, code, now);
    if p.discountCode.Some? {
      var v := ValidateDiscount(code.value, subtotal, now).value;
      DiscountAmountClamped(v.discount, subtotal);
      assert v.amount <= Round2(subtotal);
      assert subtotal - v.amount >= -0.005;
      Round2Monotone(-0.005, subtotal - v.amount);
    }
  }

  /** Normalising is idempotent: a normalised code is its own key. */
  lemma NormalizeCodeIdempotent(code: string)
    ensures NormalizeCode(NormalizeCode(code)) == NormalizeCode(code)
  {
    var t := Trim(code);
    var u := ToUpper(t);
    if u != [] {
      assert !IsWhitespace(u[0]) && !IsWhitespace(u[|u| - 1]);
      assert LeadingWhitespace(u) == 0;
      assert u[0..] == u;
      assert TrailingWhitespace(u) == 0;
      assert Trim(u) == u;
    } else {
      assert Trim(u) == u;
    }
    assert ToUpper(u) == u;
  }

  /** Looking a code up and looking up its normal form give the same pricing:
      " welcome10 " is WELCOME10. */
  lemma CodeIsNormalised(subtotal: real, code: string, now: Instant)
    requires NormalizeCode(code) != []
    ensures ApplyDiscount(subtotal, Some(code), now) == ApplyDiscount(subtotal, Some(NormalizeCode(code)), now)
  {
    NormalizeCodeIdempotent(code);
    assert ApplyDiscount(subtotal, Some(code), now) == Priced(subtotal, ValidateKey(NormalizeCode(code), subtotal, now));
  }

  lemma PaddedWelcomeNormalises()
    ensures NormalizeCode(" welcome10 ") == "WELCOME10"
  {
    var s := " welcome10 ";
    assert s[1..] == "welcome10 ";
    assert LeadingWhitespace("welcome10 ") == 0;
    assert LeadingWhitespace(s) == 1;
    var rest := "welcome10 ";
    assert rest[..|rest| - 1] == "welcome10";
    assert TrailingWhitespace("welcome10") == 0;
    assert TrailingWhitespace(rest) == 1;
    assert Trim(s) == "welcome10";
  }

  /** An amount in whole units is its own rounding to cents. */
  lemma WholeAmount(n: int)
    ensures Round2(n as real) == n as real
  {
    IntegerIsCents(n);
    Round2OfCents(n as real);
  }

  /** The checkout pricing of a code that validates to `amount`. */
  lemma AppliedPricing(subtotal: real, code: string, now: Instant, d: Discount, amount: real)
    requires code != []
    requires ValidateDiscount(code, subtotal, now) == Success(Validated(d, amount))
    ensures ApplyDiscount(subtotal, Some(code), now)
            == Pricing(subtotal, Some(d.code), amount, Round2(subtotal - amount), Some(d.description))
  {
    var r := ValidateDiscount(code, subtotal, now);
    assert ApplyDiscount(subtotal, Some(code), now) == Priced(subtotal, r);
  }

  lemma Welcome10Amount()
    ensures DiscountAmount(Welcome10, 1000.0) == 100.0
  {
    assert RawAmount(Welcome10, 1000.0) == 100.0;
    WholeAmount(100);
  }

  /** WELCOME10 on 1000 takes 100 off. */
  lemma Welcome10Example(now: Instant)
    ensures ApplyDiscount(1000.0, Some("WELCOME10"), now) == Pricing(1000.0, Some("WELCOME10"), 100.0, 900.0, Some(Welcome10.description))
  {
    UpperCodeIsKey("WELCOME10");
    CatalogEntries();
    Welcome10Amount();
    assert ValidateDiscount("WELCOME10", 1000.0, now) == Success(Validated(Welcome10, 100.0));
    AppliedPricing(1000.0, "WELCOME10", now, Welcome10, 100.0);
    WholeAmount(900);
  }

  lemma Vip20Amount()
    ensures DiscountAmount(Vip20, 2000.0) == 200.0
  {
    assert RawAmount(Vip20, 2000.0) == 200.0;
    WholeAmount(200);
  }

  /** VIP20 on 2000 would be 400 but is capped at 200. */
  lemma Vip20CappedExample(now: Instant)
    ensures ApplyDiscount(2000.0, Some("VIP20"), now) == Pricing(2000.0, Some("VIP20"), 200.0, 1800.0, Some(Vip20.description))
  {
    UpperCodeIsKey("VIP20");
    CatalogEntries();
    Vip20Amount();
    assert ValidateDiscount("VIP20", 2000.0, now) == Success(Validated(Vip20, 200.0));
    AppliedPricing(2000.0, "VIP20", now, Vip20, 200.0);
    WholeAmount(1800);
  }

  lemma Save50Amount()
    ensures DiscountAmount(Save50, 600.0) == 50.0
  {
    assert RawAmount(Save50, 600.0) == 50.0;
    WholeAmount(50);
  }

  /** SAVE50 is refused below its 500 minimum. */
  lemma Save50RefusedBelowMinimum(now: Instant)
    ensures ValidateKey("SAVE50", 300.0, now) == Failure(BelowMinimum(500.0))
  {
    CatalogEntries();
    assert CheckDiscount(Save50, 300.0, now) == Failure(BelowMinimum(500.0));
  }

  /** Below the minimum, checkout charges the full subtotal. */
  lemma Save50BelowMinimum(now: Instant)
    ensures ValidateDiscount("SAVE50", 300.0, now) == Failure(BelowMinimum(500.0))
    ensures ApplyDiscount(300.0, Some("SAVE50"), now) == Pricing(300.0, None, 0.0, 300.0, None)
  {
    UpperCodeIsKey("SAVE50");
    Save50RefusedBelowMinimum(now);
  }

  /** SAVE50 takes 50 off an order above its minimum. */
  lemma Save50Example(now: Instant)
    ensures ApplyDiscount(600.0, Some("SAVE50"), now) == Pricing(600.0, Some("SAVE50"), 50.0, 550.0, Some(Save50.description))
  {
    UpperCodeIsKey("SAVE50");
    CatalogEntries();
    Save50Amount();
    assert ValidateDiscount("SAVE50", 600.0, now) == Success(Validated(Save50, 50.0));
    AppliedPricing(600.0, "SAVE50", now, Save50, 50.0);
    WholeAmount(550);
  }

  /** INACTIVE is refused whatever the subtotal and the time. */
  lemma InactiveRefused(subtotal: real, now: Instant)
    ensures ValidateDiscount("INACTIVE", subtotal, now) == Failure(NoLongerActive)
  {
    UpperCodeIsKey("INACTIVE");
    CatalogEntries();
  }

  /** EXPIRED is refused at any time after 2025-12-31. */
  lemma ExpiredRefused(subtotal: real, now: Instant)
    requires After(now, Midnight(2025, 12, 31))
    ensures ValidateDiscount("EXPIRED", subtotal, now) == Failure(HasExpired)
  {
    UpperCodeIsKey("EXPIRED");
    CatalogEntries();
  }

  /** A code already trimmed and in upper case is its own key. */
  lemma UpperCodeIsKey(code: string)
    requires code != [] && !IsWhitespace(code[0]) && !IsWhitespace(code[|code| - 1])
    requires forall i :: 0 <= i < |code| ==> 'A' <= code[i] <= 'Z' || '0' <= code[i] <= '9'
    ensures NormalizeCode(code) == code
  {
    assert LeadingWhitespace(code) == 0;
    assert code[0..] == code;
    assert TrailingWhitespace(code) == 0;
  }

  /** `minOrderAmount` and `maxDiscount` are tested for truthiness: a value
      of 0 behaves exactly as if the field were not set. */
  lemma ZeroMinimumIsUnset(d: Discount, subtotal: real, now: Instant)
    ensures CheckDiscount(d.(minOrderAmount := Some(0.0)), subtotal, now) == CheckDiscount(d.(minOrderAmount := None), subtotal, now)
  {
    var d0, d1 := d.(minOrderAmount := Some(0.0)), d.(minOrderAmount := None);
    assert RawAmount(d0, subtotal) == RawAmount(d1, subtotal);
    assert DiscountAmount(d0, subtotal) == DiscountAmount(d1, subtotal);
  }

  lemma ZeroCapIsUnset(d: Discount, subtotal: real, now: Instant)
    ensures CheckDiscount(d.(maxDiscount := Some(0.0)), subtotal, now) == CheckDiscount(d.(maxDiscount := None), subtotal, now)
  {
    var d0, d1 := d.(maxDiscount := Some(0.0)), d.(maxDiscount := None);
    assert RawAmount(d0, subtotal) == RawAmount(d1, subtotal);
    assert DiscountAmount(d0, subtotal) == DiscountAmount(d1, subtotal);
  }

  /** The rejection order: an inactive code is reported as inactive even
      when it has also expired and the order is below its minimum. */
  lemma InactiveWinsOverLaterChecks(d: Discount, subtotal: real, now: Instant)
    requires !d.isActive
    ensures CheckDiscount(d, subtotal, now) == Failure(NoLongerActive)
  {
  }
}
