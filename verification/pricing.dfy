/** Resale pricing: resale price = original price x condition multiplier x
    category multiplier, rounded to a whole amount (backend
    common/constants/pricing.constants.ts). */
module Pricing {
  import opened Wrappers
  import opened Money

  /** One entry of a multiplier table. */
  datatype Rate = Rate(key: string, multiplier: real)

  /** Condition multipliers, keyed by lower-case condition. */
  const ConditionRates: seq<Rate> :=
    [Rate("new", 0.7), Rate("like_new", 0.6), Rate("good", 0.5), Rate("fair", 0.35)]

  /** Category multipliers, keyed by capitalised category. */
  const CategoryRates: seq<Rate> :=
    [Rate("Outerwear", 1.1), Rate("Jackets", 1.05), Rate("Dresses", 1.0),
     Rate("Shoes", 0.95), Rate("Knitwear", 0.9), Rate("Bottoms", 0.85),
     Rate("Tops", 0.8), Rate("Activewear", 0.8), Rate("Accessories", 0.75)]

  const ValidConditions: seq<string> := ["new", "like_new", "good", "fair"]

  const ValidCategories: seq<string> :=
    ["Tops", "Bottoms", "Outerwear", "Jackets", "Dresses",
     "Knitwear", "Shoes", "Accessories", "Activewear"]

  /** Used when the condition is not a key of the table. */
  const DefaultConditionMultiplier: real := 0.5

  /** Used when the category is not a key of the table. */
  const DefaultCategoryMultiplier: real := 0.85

  /** `TABLE[key]`: the multiplier of the first entry with that key. */
  function RateOf(table: seq<Rate>, key: string): Option<real> {
    if table == [] then None
    else if table[0].key == key then Some(table[0].multiplier)
    else RateOf(table[1..], key)
  }

  /** The keys of a table, in order. */
  function Keys(table: seq<Rate>): (ks: seq<string>)
    ensures |ks| == |table|
    ensures forall i :: 0 <= i < |table| ==> ks[i] == table[i].key
  {
    seq(|table|, i requires 0 <= i < |table| => table[i].key)
  }

  /** A lookup finds a multiplier exactly when some entry has the key, and
      then it is that entry's multiplier. */
  lemma {:induction false} RateOfFound(table: seq<Rate>, key: string)
    ensures RateOf(table, key).Some? <==> key in Keys(table)
    ensures RateOf(table, key).Some? ==>
              exists i :: 0 <= i < |table| && table[i] == Rate(key, RateOf(table, key).value)
  {
    if table != [] {
      RateOfFound(table[1..], key);
      assert Keys(table) == [table[0].key] + Keys(table[1..]);
      if table[0].key != key && RateOf(table, key).Some? {
        var i :| 0 <= i < |table[1..]| && table[1..][i] == Rate(key, RateOf(table, key).value);
        assert table[i + 1] == table[1..][i];
      }
    }
  }

  /** A key no entry has is not found. */
  lemma {:induction false} RateOfAbsent(table: seq<Rate>, key: string)
    requires key !in Keys(table)
    ensures RateOf(table, key) == None
  {
    RateOfFound(table, key);
  }

  /** A key whose length no entry's key has is not found. */
  lemma {:induction false} RateOfOtherLength(table: seq<Rate>, key: string)
    requires forall i :: 0 <= i < |table| ==> |table[i].key| != |key|
    ensures RateOf(table, key) == None
  {
    if table != [] {
      assert |table[0].key| != |key|;
      assert forall i :: 0 <= i < |table[1..]| ==> table[1..][i] == table[i + 1];
      RateOfOtherLength(table[1..], key);
    }
  }

  /** No two entries of a table share a key. */
  predicate DistinctKeys(table: seq<Rate>) {
    forall a, b :: 0 <= a < b < |table| ==> table[a].key != table[b].key
  }

  /** In a table without repeated keys, each entry's key finds that entry. */
  lemma {:induction false} RateOfAt(table: seq<Rate>, i: nat)
    requires i < |table| && DistinctKeys(table)
    ensures RateOf(table, table[i].key) == Some(table[i].multiplier)
  {
    if i > 0 {
      assert table[0].key != table[i].key;
      assert DistinctKeys(table[1..]) by {
        forall a, b | 0 <= a < b < |table[1..]|
          ensures table[1..][a].key != table[1..][b].key
        {
          assert table[1..][a] == table[a + 1] && table[1..][b] == table[b + 1];
        }
      }
      RateOfAt(table[1..], i - 1);
      assert table[1..][i - 1] == table[i];
    }
  }

  /** A looked-up multiplier lies within the range of the table's. */
  lemma {:induction false} RateWithin(table: seq<Rate>, key: string, lo: real, hi: real)
    requires forall i :: 0 <= i < |table| ==> lo <= table[i].multiplier <= hi
    ensures RateOf(table, key).Some? ==> lo <= RateOf(table, key).value <= hi
  {
    if table != [] && table[0].key != key {
      RateWithin(table[1..], key, lo, hi);
    }
  }

  /** `CONDITION_MULTIPLIERS[condition] ?? 0.5`. */
  function ConditionMultiplier(condition: string): (m: real)
    ensures 0.35 <= m <= 0.7
  {
    RateWithin(ConditionRates, condition, 0.35, 0.7);
    match RateOf(ConditionRates, condition)
    case Some(m) => m
    case None => DefaultConditionMultiplier
  }

  /** `CATEGORY_MULTIPLIERS[category] ?? 0.85`. */
  function CategoryMultiplier(category: string): (m: real)
    ensures 0.75 <= m <= 1.1
  {
    RateWithin(CategoryRates, category, 0.75, 1.1);
    match RateOf(CategoryRates, category)
    case Some(m) => m
    case None => DefaultCategoryMultiplier
  }

  /** `calculateResalePrice`: the whole amount nearest to the discounted
      price, halves rounded up. */
  function CalculateResalePrice(originalPrice: real, condition: string, category: string): (r: int)
  {
    RoundHalfUp(originalPrice * ConditionMultiplier(condition) * CategoryMultiplier(category))
  }

  /** The resale price is the whole amount within half of the scaled
      original, a half going up. */
  lemma ResalePriceIsNearest(originalPrice: real, condition: string, category: string)
    ensures var exact := originalPrice * ConditionMultiplier(condition) * CategoryMultiplier(category);
            exact - 0.5 < CalculateResalePrice(originalPrice, condition, category) as real <= exact + 0.5
  {
  }

  /** The valid conditions are exactly the keys of the condition table, in
      the same order, four of them, without repetition. */
  lemma ValidConditionsAreTableKeys()
    ensures Keys(ConditionRates) == ValidConditions
    ensures |ValidConditions| == 4
    ensures forall i, j :: 0 <= i < j < |ValidConditions| ==> ValidConditions[i] != ValidConditions[j]
  {
  }

  /** The valid categories are exactly the keys of the category table,
      nine of them, without repetition. */
  lemma ValidCategoriesAreTableKeys()
    ensures forall c :: c in ValidCategories <==> c in Keys(CategoryRates)
    ensures |ValidCategories| == 9
    ensures forall i, j :: 0 <= i < j < |ValidCategories| ==> ValidCategories[i] != ValidCategories[j]
  {
    ValidCategoriesDistinct();
    var ks := Keys(CategoryRates);
    assert ks == ["Outerwear", "Jackets", "Dresses", "Shoes", "Knitwear", "Bottoms", "Tops", "Activewear", "Accessories"];
  }

  lemma ValidCategoriesDistinct()
    ensures forall i, j :: 0 <= i < j < |ValidCategories| ==> ValidCategories[i] != ValidCategories[j]
  {
    forall i, j | 0 <= i < j < |ValidCategories|
      ensures ValidCategories[i] != ValidCategories[j]
    {
      var a, b := ValidCategories[i], ValidCategories[j];
      assert a[0] != b[0] || a[2] != b[2];
    }
  }

  /** The condition table as written. */
  lemma ConditionEntries()
    ensures ConditionMultiplier("new") == 0.7
    ensures ConditionMultiplier("like_new") == 0.6
    ensures ConditionMultiplier("good") == 0.5
    ensures ConditionMultiplier("fair") == 0.35
  {
    assert DistinctKeys(ConditionRates);
    RateOfAt(ConditionRates, 0);
    RateOfAt(ConditionRates, 1);
    RateOfAt(ConditionRates, 2);
    RateOfAt(ConditionRates, 3);
  }

  /** Each entry of the condition table is what its key looks up. */
  lemma ConditionRateAt(i: nat)
    requires i < |ConditionRates|
    ensures ConditionMultiplier(ConditionRates[i].key) == ConditionRates[i].multiplier
  {
    assert DistinctKeys(ConditionRates);
    RateOfAt(ConditionRates, i);
  }

  lemma CategoryKeysDistinct()
    ensures DistinctKeys(CategoryRates)
  {
    forall a, b | 0 <= a < b < |CategoryRates|
      ensures CategoryRates[a].key != CategoryRates[b].key
    {
      var x, y := CategoryRates[a].key, CategoryRates[b].key;
      assert x[0] != y[0] || x[2] != y[2];
    }
  }

  /** The category table as written. */
  lemma CategoryEntries()
    ensures CategoryMultiplier("Outerwear") == 1.1
    ensures CategoryMultiplier("Jackets") == 1.05
    ensures CategoryMultiplier("Dresses") == 1.0
    ensures CategoryMultiplier("Shoes") == 0.95
    ensures CategoryMultiplier("Knitwear") == 0.9
    ensures CategoryMultiplier("Bottoms") == 0.85
    ensures CategoryMultiplier("Tops") == 0.8
    ensures CategoryMultiplier("Activewear") == 0.8
    ensures CategoryMultiplier("Accessories") == 0.75
  {
    CategoryKeysDistinct();
    RateOfAt(CategoryRates, 0);
    RateOfAt(CategoryRates, 1);
    RateOfAt(CategoryRates, 2);
    RateOfAt(CategoryRates, 3);
    RateOfAt(CategoryRates, 4);
    RateOfAt(CategoryRates, 5);
    RateOfAt(CategoryRates, 6);
    RateOfAt(CategoryRates, 7);
    RateOfAt(CategoryRates, 8);
  }

  /** A valid condition gets its table multiplier, any other text 0.5. */
  lemma ConditionMultiplierCases(condition: string)
    ensures condition in ValidConditions <==> RateOf(ConditionRates, condition).Some?
    ensures condition in ValidConditions ==>
              exists i :: 0 <= i < |ConditionRates| && ConditionRates[i] == Rate(condition, ConditionMultiplier(condition))
    ensures condition !in ValidConditions ==> ConditionMultiplier(condition) == DefaultConditionMultiplier
  {
    ValidConditionsAreTableKeys();
    RateOfFound(ConditionRates, condition);
  }

  /** A valid category gets its table multiplier, any other text 0.85. */
  lemma CategoryMultiplierCases(category: string)
    ensures category in ValidCategories <==> RateOf(CategoryRates, category).Some?
    ensures category in ValidCategories ==>
              exists i :: 0 <= i < |CategoryRates| && CategoryRates[i] == Rate(category, CategoryMultiplier(category))
    ensures category !in ValidCategories ==> CategoryMultiplier(category) == DefaultCategoryMultiplier
  {
    ValidCategoriesAreTableKeys();
    RateOfFound(CategoryRates, category);
  }

  /** Lookups are case-sensitive: an upper-case condition or a lower-case
      category falls back to the default multiplier. */
  lemma LookupsAreCaseSensitive()
    ensures ConditionMultiplier("NEW") == DefaultConditionMultiplier
    ensures ConditionMultiplier("Like_New") == DefaultConditionMultiplier
    ensures CategoryMultiplier("outerwear") == DefaultCategoryMultiplier
  {
    ValidConditionsAreTableKeys();
    ValidCategoriesAreTableKeys();
    RateOfAbsent(ConditionRates, "NEW");
    RateOfAbsent(ConditionRates, "Like_New");
    RateOfAbsent(CategoryRates, "outerwear");
  }

  /** A zero original price prices at zero, whatever the condition and category. */
  lemma ResalePriceOfZero(condition: string, category: string)
    ensures CalculateResalePrice(0.0, condition, category) == 0
  {
  }

  /** For a fixed condition and category, a dearer original never gives a
      cheaper resale price. */
  lemma ResalePriceMonotone(p: real, q: real, condition: string, category: string)
    requires p <= q
    ensures CalculateResalePrice(p, condition, category) <= CalculateResalePrice(q, condition, category)
  {
    var c, k := ConditionMultiplier(condition), CategoryMultiplier(category);
    ScaleMonotone(p, q, c, k);
    RoundHalfUpMonotone(p * c * k, q * c * k);
  }

  /** A resale price never exceeds 77% of the original (new Outerwear, the
      dearest combination) and is never negative for a non-negative original. */
  lemma ResalePriceBounds(p: real, condition: string, category: string)
    requires p >= 0.0
    ensures 0 <= CalculateResalePrice(p, condition, category) <= RoundHalfUp(p * 0.77)
  {
    var c, k := ConditionMultiplier(condition), CategoryMultiplier(category);
    ScaledWithin(p, c, k);
    RoundHalfUpMonotone(p * c * k, p * 0.77);
    RoundHalfUpMonotone(0.0, p * c * k);
  }

  /** Scaling by two positive multipliers keeps the order. */
  lemma ScaleMonotone(p: real, q: real, c: real, k: real)
    requires p <= q && c > 0.0 && k > 0.0
    ensures p * c * k <= q * c * k
  {
    assert p * c <= q * c;
  }

  /** With multipliers in the tables' ranges the scaled price lies between
      0 and 77% of the original. */
  lemma ScaledWithin(p: real, c: real, k: real)
    requires p >= 0.0 && 0.35 <= c <= 0.7 && 0.75 <= k <= 1.1
    ensures 0.0 <= p * c * k <= p * 0.77
  {
    assert c * k <= 0.7 * k;
    assert p * c * k == p * (c * k);
    assert p * (c * k) <= p * 0.77;
    assert p * c >= 0.0;
  }

  /** The resale price once both multipliers are known: the whole amount
      within half of the discounted price, from below inclusive. */
  lemma PriceIs(originalPrice: real, condition: string, category: string, cm: real, km: real, n: int)
    requires ConditionMultiplier(condition) == cm && CategoryMultiplier(category) == km
    requires n as real - 0.5 <= originalPrice * cm * km < n as real + 0.5
    ensures CalculateResalePrice(originalPrice, condition, category) == n
  {
  }

  /** A new coat of 1000 resells for 770. */
  lemma NewOuterwearPrice()
    ensures CalculateResalePrice(1000.0, "new", "Outerwear") == 770
  {
    ConditionRateAt(0); CategoryEntries();
    PriceIs(1000.0, "new", "Outerwear", 0.7, 1.1, 770);
  }

  /** A like-new top of 500 resells for 240. */
  lemma LikeNewTopsPrice()
    ensures CalculateResalePrice(500.0, "like_new", "Tops") == 240
  {
    ConditionRateAt(1); CategoryEntries();
    PriceIs(500.0, "like_new", "Tops", 0.6, 0.8, 240);
  }

  /** A good jacket of 899 resells for 472: 471.975 rounds up. */
  lemma GoodJacketsPrice()
    ensures CalculateResalePrice(899.0, "good", "Jackets") == 472
  {
    ConditionRateAt(2); CategoryEntries();
    PriceIs(899.0, "good", "Jackets", 0.5, 1.05, 472);
  }

  /** A fair accessory of 400 resells for 105. */
  lemma FairAccessoriesPrice()
    ensures CalculateResalePrice(400.0, "fair", "Accessories") == 105
  {
    ConditionRateAt(3); CategoryEntries();
    PriceIs(400.0, "fair", "Accessories", 0.35, 0.75, 105);
  }

  /** An unknown condition falls back to 0.5: shoes of 1000 resell for 475. */
  lemma UnknownConditionPrice()
    ensures CalculateResalePrice(1000.0, "unknown", "Shoes") == 475
  {
    assert ConditionMultiplier("unknown") == 0.5 by {
      RateOfOtherLength(ConditionRates, "unknown");
    }
    PriceIs(1000.0, "unknown", "Shoes", 0.5, 0.95, 475) by { CategoryEntries(); }
  }

  /** An unknown category falls back to 0.85: a good item of 1000 resells
      for 425. */
  lemma UnknownCategoryPrice()
    ensures CalculateResalePrice(1000.0, "good", "UnknownCategory") == 425
  {
    assert CategoryMultiplier("UnknownCategory") == 0.85 by {
      RateOfOtherLength(CategoryRates, "UnknownCategory");
    }
    PriceIs(1000.0, "good", "UnknownCategory", 0.5, 0.85, 425) by { ConditionRateAt(2); }
  }

  /** Like-new knitwear of 333 resells for 180: 179.82 rounds up. */
  lemma KnitwearRoundsUp()
    ensures CalculateResalePrice(333.0, "like_new", "Knitwear") == 180
  {
    ConditionRateAt(1); CategoryEntries();
    PriceIs(333.0, "like_new", "Knitwear", 0.6, 0.9, 180);
  }

  /** A new coat of 5000 resells for 3850. */
  lemma LargePrice()
    ensures CalculateResalePrice(5000.0, "new", "Outerwear") == 3850
  {
    ConditionRateAt(0); CategoryEntries();
    PriceIs(5000.0, "new", "Outerwear", 0.7, 1.1, 3850);
  }

  /** The sample white shirt, like-new top of 349, resells for 168: 167.52
      rounds up. */
  lemma ShirtPrice()
    ensures CalculateResalePrice(349.0, "like_new", "Tops") == 168
  {
    ConditionRateAt(1); CategoryEntries();
    PriceIs(349.0, "like_new", "Tops", 0.6, 0.8, 168);
  }

  /** The sample ankle boots, fair shoes of 1299, resell for 432: 431.9175
      rounds down. */
  lemma BootsPrice()
    ensures CalculateResalePrice(1299.0, "fair", "Shoes") == 432
  {
    ConditionRateAt(3); CategoryEntries();
    PriceIs(1299.0, "fair", "Shoes", 0.35, 0.95, 432);
  }

  /** The sample trench coat, like-new outerwear of 2499, resells for 1649:
      1649.34 rounds down. */
  lemma TrenchCoatPrice()
    ensures CalculateResalePrice(2499.0, "like_new", "Outerwear") == 1649
  {
    ConditionRateAt(1); CategoryEntries();
    PriceIs(2499.0, "like_new", "Outerwear", 0.6, 1.1, 1649);
  }
}
