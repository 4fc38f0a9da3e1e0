/** The transform stage (transform/main.py): the cell conversions of
    `preprocess_data`, the DataFrame it rewrites in place, and the table
    store `save_to_database` writes to. */
module Transform {
  import opened Wrappers
  import opened Text
  import opened Decimals
  import opened Timestamps
  import Spider

  const TABLE_NAME := "mercadolivre"
  const SOURCE_URL := "https://lista.mercadolivre.com.br/geladeira-frost-free"

  /** A DataFrame cell: missing (None, NaN or NA), text, a number, or a value
      of pandas' nullable `Int64` type. */
  datatype Cell = Null | Text(text: string) | Num(value: Decimal) | Int(n: int)

  /** A feed field as a cell: text, or missing. */
  function FromField(f: Option<string>): (c: Cell)
    ensures f.None? <==> c.Null?
    ensures f.Some? ==> c == Text(f.value)
  {
    match f
    case Some(s) => Text(s)
    case None => Null
  }

  /** The decimal text of an integer. */
  function IntText(n: int): string
  {
    (if n < 0 then "-" else "") + NatToDigits(Abs(n))
  }

  /** `astype(str)` on one cell: a missing value becomes the text "None". */
  function AsText(c: Cell): string
  {
    match c
    case Null => "None"
    case Text(s) => s
    case Num(d) => Show(d)
    case Int(n) => IntText(n)
  }

  /** `pd.to_numeric(..., errors="coerce")` on one cell: text that is not a
      numeral becomes missing instead of raising. */
  function ToNumeric(c: Cell): (r: Cell)
    ensures r.Null? || r.Num?
  {
    match c
    case Null => Null
    case Text(s) => (match Parse(s) case Some(d) => Num(d) case None => Null)
    case Num(d) => Num(d)
    case Int(n) => Num(Decimal(n, 0))
  }

  /** A price cell: to text, every ',' replaced by '.', then to a number. */
  function ConvertPrice(c: Cell): (r: Cell)
    ensures r.Null? || r.Num?
  {
    ToNumeric(Text(ReplaceChar(AsText(c), ',', '.')))
  }

  /** A rating cell: straight to a number. */
  function ConvertRating(c: Cell): (r: Cell)
    ensures r.Null? || r.Num?
  {
    ToNumeric(c)
  }

  const INT64_MIN: int := -0x8000_0000_0000_0000
  const INT64_MAX: int := 0x7fff_ffff_ffff_ffff

  /** `astype("Int64")` on one numeric cell: missing stays missing (NA), a
      whole number in the 64-bit range is kept, anything else cannot be cast
      and makes the whole conversion raise (None here). */
  function CastInt64(c: Cell): (r: Option<Cell>)
    ensures r.Some? ==> r.value.Null? || r.value.Int?
    ensures c.Null? ==> r == Some(Null)
    ensures c.Num? ==>
      (r.Some? <==> IsIntegral(c.value) && INT64_MIN <= IntegralValue(c.value) <= INT64_MAX)
    ensures c.Num? && r.Some? ==>
      r.value.Int? && r.value.n * Pow10(c.value.scale) == c.value.mantissa
    ensures c.Int? ==> (r.Some? <==> INT64_MIN <= c.n <= INT64_MAX)
    ensures c.Int? && r.Some? ==> r.value == c
    ensures c.Text? ==> r.None?
  {
    match c
    case Null => Some(Null)
    case Num(d) =>
      if IsIntegral(d) && INT64_MIN <= IntegralValue(d) <= INT64_MAX then Some(Int(IntegralValue(d))) else None
    case Int(n) => if INT64_MIN <= n <= INT64_MAX then Some(Int(n)) else None
    case Text(_) => None
  }

  /** A review-count cell: to a number, then to a nullable integer. */
  function ConvertReviewAmount(c: Cell): Option<Cell>
  {
    CastInt64(ToNumeric(c))
  }

  // ------------------------------------------------------ cell conversions

  /** Text in which `s[i]` can stand in no numeral is not a number. */
  lemma NotNumeral(s: string, i: nat)
    requires i < |s| && !IsDigit(s[i]) && s[i] != '.' && !(i == 0 && (s[i] == '-' || s[i] == '+'))
    ensures Parse(s) == None
  {
    ParseSound(s);
  }

  /** A missing price, stringified to "None", becomes missing again. */
  lemma ConvertPriceNull()
    ensures ConvertPrice(Null) == Null
  {
    ReplaceAbsent("None", ',', '.');
    NotNumeral("None", 0);
  }

  /** A price written `digits` is that whole number. */
  lemma ConvertPriceDigits(s: string)
    requires s != [] && AllDigits(s)
    ensures ConvertPrice(Text(s)) == Num(Decimal(DigitsToNat(s), 0))
  {
    ReplaceAbsent(s, ',', '.');
    ParseDigits(s);
  }

  /** A price written `digits,digits` or `digits.digits` is read with the
      separator as the decimal point. */
  lemma ConvertPriceOneSeparator(whole: string, sep: char, fraction: string)
    requires whole != [] && fraction != [] && AllDigits(whole) && AllDigits(fraction)
    requires sep == ',' || sep == '.'
    ensures ConvertPrice(Text(whole + [sep] + fraction)) == Num(Decimal(DigitsToNat(whole + fraction), |fraction|))
  {
    ReplaceCharAppend(whole + [sep], fraction, ',', '.');
    ReplaceCharAppend(whole, [sep], ',', '.');
    ReplaceAbsent(whole, ',', '.');
    ReplaceAbsent(fraction, ',', '.');
    var t := whole + "." + fraction;
    assert ReplaceChar(whole + [sep] + fraction, ',', '.') == t;
    assert t[0] == whole[0];
    ParseWholeFraction(whole, fraction);
  }

  /** Two separators (',' or '.') anywhere make a price missing: there is no
      thousands-separator handling. */
  lemma ConvertPriceTwoSeparators(s: string, i: nat, j: nat)
    requires i < j < |s| && s[i] in {',', '.'} && s[j] in {',', '.'}
    ensures ConvertPrice(Text(s)) == Null
  {
    var t := ReplaceChar(s, ',', '.');
    ReplaceCharAt(s, ',', '.', i);
    ReplaceCharAt(s, ',', '.', j);
    ParseSound(t);
  }

  /** "1.234,56" has two separators once ',' becomes '.', so it is missing. */
  lemma ConvertPriceThousands()
    ensures ConvertPrice(Text("1.234,56")) == Null
  {
    ConvertPriceTwoSeparators("1.234,56", 1, 5);
  }

  /** "2.599" is the fraction 2.599, not two thousand five hundred. */
  lemma ConvertPriceFraction()
    ensures ConvertPrice(Text("2.599")) == Num(Decimal(2599, 3))
  {
    var whole, fraction := "2", "599";
    assert DigitsToNat(whole + fraction) == 2599 by {
      assert whole + fraction == "2599";
      Value2599();
    }
    assert ConvertPrice(Text(whole + ['.'] + fraction)) == Num(Decimal(DigitsToNat(whole + fraction), |fraction|)) by {
      ConvertPriceOneSeparator(whole, '.', fraction);
    }
    assert whole + ['.'] + fraction == "2.599";
  }

  /** Proof step: the value of the digits "2599". */
  lemma Value2599()
    ensures DigitsToNat("2599") == 2599
  {
    DigitsToNatSnoc("", '2');
    DigitsToNatSnoc("2", '5');
    DigitsToNatSnoc("25", '9');
    DigitsToNatSnoc("259", '9');
    assert [] + ['2'] == "2" && "2" + ['5'] == "25" && "25" + ['9'] == "259" && "259" + ['9'] == "2599";
  }

  /** Converting a converted price gives the same cell. */
  lemma ConvertPriceIdempotent(c: Cell)
    ensures ConvertPrice(ConvertPrice(c)) == ConvertPrice(c)
  {
    match ConvertPrice(c)
    case Null => ConvertPriceNull();
    case Num(d) =>
      ReplaceAbsent(Show(d), ',', '.');
      ParseShow(d);
  }

  /** A rating holding a ',' is missing: ratings get no comma replacement. */
  lemma ConvertRatingComma(s: string, i: nat)
    requires i < |s| && s[i] == ','
    ensures ConvertRating(Text(s)) == Null
  {
    NotNumeral(s, i);
  }

  /** A rating written in canonical form is that number. */
  lemma ConvertRatingNumeral(d: Decimal)
    ensures ConvertRating(Text(Show(d))) == Num(d)
  {
    ParseShow(d);
  }

  /** A review count written `digits` within the 64-bit range is that integer. */
  lemma ConvertReviewAmountDigits(s: string)
    requires s != [] && AllDigits(s) && DigitsToNat(s) <= INT64_MAX
    ensures ConvertReviewAmount(Text(s)) == Some(Int(DigitsToNat(s)))
  {
    ParseDigits(s);
    assert IsIntegral(Decimal(DigitsToNat(s), 0));
  }

  /** "0" is the integer 0, not missing. */
  lemma ConvertReviewAmountZero()
    ensures ConvertReviewAmount(Text("0")) == Some(Int(0))
  {
    ConvertReviewAmountDigits("0");
  }

  /** A fraction such as "2.5" cannot be cast to an integer and is not rounded. */
  lemma ConvertReviewAmountFraction()
    ensures ConvertReviewAmount(Text("2.5")) == None
  {
    ParseWholeFraction("2", "5");
    assert "2" + "." + "5" == "2.5";
    assert DigitsToNat("25") == 25 by {
      DigitsToNatSnoc("2", '5');
      assert "2" + ['5'] == "25";
    }
    assert !IsIntegral(Decimal(25, 1));
  }

  /** A review count that is not a numeral, such as the empty text a bare
      "()" strips to, is missing rather than an error. */
  lemma ConvertReviewAmountUnparsable(s: string)
    requires Parse(s).None?
    ensures ConvertReviewAmount(Text(s)) == Some(Null)
  {
  }

  lemma ConvertReviewAmountEmpty()
    ensures ConvertReviewAmount(Text("")) == Some(Null)
  {
    ConvertReviewAmountUnparsable("");
  }

  // ---------------------------------------------------------------- columns

  type Columns = map<string, seq<Cell>>

  function Fill(n: nat, v: Cell): (r: seq<Cell>)
    ensures |r| == n && forall i :: 0 <= i < n ==> r[i] == v
  {
    seq(n, _ => v)
  }

  /** `read_json` on the exported feed: one column per record key, one row per
      record; an empty feed gives a frame without columns. */
  function LoadFrame(items: seq<Spider.Item>): (cols: Columns)
    ensures items == [] ==> cols == map[]
    ensures items != [] ==> cols.Keys == Spider.FIELD_NAMES
    ensures forall c :: c in cols ==> |cols[c]| == |items|
  {
    if items == [] then map[]
    else map c | c in Spider.FIELD_NAMES :: seq(|items|, i requires 0 <= i < |items| => FromField(Spider.FeedObject(items[i])[c]))
  }

  /** Each record's fields land in its row, missing fields as missing cells. */
  lemma LoadFrameCells(items: seq<Spider.Item>, i: nat)
    requires i < |items|
    ensures var cols := LoadFrame(items);
      && cols["brand"][i] == FromField(items[i].brand)
      && cols["name"][i] == FromField(items[i].name)
      && cols["old_price"][i] == FromField(items[i].oldPrice)
      && cols["new_price"][i] == FromField(items[i].newPrice)
      && cols["review_rating_number"][i] == FromField(items[i].reviewRatingNumber)
      && cols["review_amount"][i] == Text(items[i].reviewAmount)
  {
  }

  /** The two metadata columns, the same value on every row. */
  function Stamp(cols: Columns, height: nat, now: DateTime): Columns
  {
    cols["_source" := Fill(height, Text(SOURCE_URL))]["_crawled_at" := Fill(height, Text(FormatTimestamp(now)))]
  }

  const PRICE_COLUMNS: seq<string> := ["new_price", "old_price"]

  /** The columns `preprocess_data` converts, in the order it converts them. */
  const CONVERTED: seq<string> := PRICE_COLUMNS + ["review_rating_number", "review_amount"]

  lemma ConvertedNames()
    ensures |CONVERTED| == 4
    ensures CONVERTED[0] == "new_price" && CONVERTED[1] == "old_price"
    ensures CONVERTED[2] == "review_rating_number" && CONVERTED[3] == "review_amount"
    ensures forall i, j :: 0 <= i < j < |CONVERTED| ==> CONVERTED[i] != CONVERTED[j]
    ensures forall i :: 0 <= i < |CONVERTED| ==> CONVERTED[i] != "_source" && CONVERTED[i] != "_crawled_at"
  {
    assert CONVERTED[2][7] != CONVERTED[3][7];
    assert forall i :: 0 <= i < |CONVERTED| ==> CONVERTED[i][0] != '_';
  }

  function Prices(cells: seq<Cell>): seq<Cell>
  {
    seq(|cells|, j requires 0 <= j < |cells| => ConvertPrice(cells[j]))
  }

  function Ratings(cells: seq<Cell>): seq<Cell>
  {
    seq(|cells|, j requires 0 <= j < |cells| => ConvertRating(cells[j]))
  }

  /** Every review-count cell can be cast. */
  predicate Castable(cells: seq<Cell>)
  {
    forall j :: 0 <= j < |cells| ==> ConvertReviewAmount(cells[j]).Some?
  }

  /** The review-count column cast as a whole: raises (None) when one cell cannot be. */
  function ReviewAmounts(cells: seq<Cell>): (r: Option<seq<Cell>>)
    ensures r.Some? <==> Castable(cells)
    ensures r.Some? ==> |r.value| == |cells|
    ensures r.Some? ==> forall j :: 0 <= j < |cells| ==> Some(r.value[j]) == ConvertReviewAmount(cells[j])
  {
    if Castable(cells) then Some(seq(|cells|, j requires 0 <= j < |cells| => ConvertReviewAmount(cells[j]).value))
    else None
  }

  /** Conversion step `i` of `preprocess_data` on its column; None when it raises. */
  function Convert(i: nat, cells: seq<Cell>): (r: Option<seq<Cell>>)
    requires i < |CONVERTED|
  {
    if i < 2 then Some(Prices(cells)) else if i == 2 then Some(Ratings(cells)) else ReviewAmounts(cells)
  }

  /** Step `i` goes through: its column exists and its conversion does not raise. */
  predicate StepOk(cols: Columns, i: nat)
    requires i < |CONVERTED|
  {
    CONVERTED[i] in cols && Convert(i, cols[CONVERTED[i]]).Some?
  }

  /** The first step from `i` on that raises, or 4 when none does. */
  function FirstFailing(cols: Columns, i: nat): (k: nat)
    requires i <= |CONVERTED|
    ensures i <= k <= |CONVERTED|
    ensures k < |CONVERTED| ==> !StepOk(cols, k)
    decreases |CONVERTED| - i
  {
    if i == |CONVERTED| then i else if StepOk(cols, i) then FirstFailing(cols, i + 1) else i
  }

  /** Every step before the first failing one goes through. */
  lemma {:induction false} BeforeFirstFailing(cols: Columns, i: nat, j: nat)
    requires i <= j < |CONVERTED| && j < FirstFailing(cols, i)
    ensures StepOk(cols, j)
    decreases j - i
  {
    if i < j {
      BeforeFirstFailing(cols, i + 1, j);
    }
  }

  /** The columns after the first `k` conversion steps. */
  function Applied(cols: Columns, k: nat): (r: Columns)
    requires k <= FirstFailing(cols, 0)
    ensures r.Keys == cols.Keys
  {
    if k == 0 then cols
    else
      BeforeFirstFailing(cols, 0, k - 1);
      var c := CONVERTED[k - 1];
      Applied(cols, k - 1)[c := Convert(k - 1, cols[c]).value]
  }

  /** After `k` steps each of the first `k` converted columns holds its
      conversion and every other column is as it was. */
  lemma {:induction false} AppliedSpec(cols: Columns, k: nat)
    requires k <= FirstFailing(cols, 0)
    ensures forall i :: 0 <= i < k ==> Applied(cols, k)[CONVERTED[i]] == Convert(i, cols[CONVERTED[i]]).value
    ensures forall c :: c in cols && (forall i :: 0 <= i < k ==> CONVERTED[i] != c) ==> Applied(cols, k)[c] == cols[c]
  {
    if k > 0 {
      AppliedSpec(cols, k - 1);
      ConvertedNames();
      BeforeFirstFailing(cols, 0, k - 1);
    }
  }

  datatype PreprocessError = KeyError(column: string) | CastError(column: string)

  /** What `preprocess_data` returns or raises on these (already stamped) columns. */
  function PreprocessOutcome(cols: Columns): Outcome<PreprocessError>
  {
    var k := FirstFailing(cols, 0);
    if k == |CONVERTED| then Pass
    else if CONVERTED[k] !in cols then Fail(KeyError(CONVERTED[k]))
    else Fail(CastError(CONVERTED[k]))
  }

  /** `preprocess_data` returns exactly when all four columns exist and every
      review count can be cast. */
  lemma PreprocessPasses(cols: Columns)
    ensures PreprocessOutcome(cols) == Pass <==>
      && "new_price" in cols && "old_price" in cols && "review_rating_number" in cols
      && "review_amount" in cols && Castable(cols["review_amount"])
  {
    ConvertedNames();
    if FirstFailing(cols, 0) == |CONVERTED| {
      forall i | 0 <= i < |CONVERTED| ensures StepOk(cols, i) {
        BeforeFirstFailing(cols, 0, i);
      }
    }
  }

  /** A KeyError names the first of the converted columns that is missing. */
  lemma PreprocessKeyError(cols: Columns, k: nat)
    requires k < |CONVERTED| && CONVERTED[k] !in cols
    requires forall i :: 0 <= i < k ==> CONVERTED[i] in cols
    ensures PreprocessOutcome(cols) == Fail(KeyError(CONVERTED[k]))
  {
    ConvertedNames();
    var f := FirstFailing(cols, 0);
    if k < f {
      BeforeFirstFailing(cols, 0, k);
    }
  }

  /** With all four columns present, the only error is the review-count cast. */
  lemma PreprocessCastError(cols: Columns)
    requires "new_price" in cols && "old_price" in cols && "review_rating_number" in cols
    requires "review_amount" in cols && !Castable(cols["review_amount"])
    ensures PreprocessOutcome(cols) == Fail(CastError("review_amount"))
  {
    ConvertedNames();
  }

  /** After a successful run each converted column holds its cells converted
      row by row, and every other column is as it was. */
  lemma PreprocessedColumns(cols: Columns)
    requires "new_price" in cols && "old_price" in cols && "review_rating_number" in cols && "review_amount" in cols
    requires PreprocessOutcome(cols) == Pass
    ensures var r := Applied(cols, FirstFailing(cols, 0));
      && r.Keys == cols.Keys
      && |r["new_price"]| == |cols["new_price"]| && |r["old_price"]| == |cols["old_price"]|
      && |r["review_rating_number"]| == |cols["review_rating_number"]| && |r["review_amount"]| == |cols["review_amount"]|
    ensures var r := Applied(cols, FirstFailing(cols, 0));
      && (forall j :: 0 <= j < |cols["new_price"]| ==> r["new_price"][j] == ConvertPrice(cols["new_price"][j]))
      && (forall j :: 0 <= j < |cols["old_price"]| ==> r["old_price"][j] == ConvertPrice(cols["old_price"][j]))
      && (forall j :: 0 <= j < |cols["review_rating_number"]| ==>
            r["review_rating_number"][j] == ConvertRating(cols["review_rating_number"][j]))
      && (forall j :: 0 <= j < |cols["review_amount"]| ==>
            Some(r["review_amount"][j]) == ConvertReviewAmount(cols["review_amount"][j]))
    ensures forall c :: c in cols && c != "new_price" && c != "old_price" && c != "review_rating_number" && c != "review_amount" ==>
      Applied(cols, FirstFailing(cols, 0))[c] == cols[c]
  {
    ConvertedNames();
    var k := FirstFailing(cols, 0);
    assert k == |CONVERTED|;
    AppliedSpec(cols, k);
    var r := Applied(cols, k);
    assert r["new_price"] == Prices(cols["new_price"]);
    assert r["old_price"] == Prices(cols["old_price"]);
    assert r["review_rating_number"] == Ratings(cols["review_rating_number"]);
    assert Some(r["review_amount"]) == ReviewAmounts(cols["review_amount"]);
  }

  /** A step that raises after the earlier ones went through is the first failing one. */
  lemma Halt(cols: Columns, k: nat)
    requires k < |CONVERTED| && k <= FirstFailing(cols, 0) && !StepOk(cols, k)
    ensures FirstFailing(cols, 0) == k
  {
    if k < FirstFailing(cols, 0) {
      BeforeFirstFailing(cols, 0, k);
    }
  }

  /** A step that goes through extends the applied steps by its column. */
  lemma Advance(cols: Columns, k: nat)
    requires k < |CONVERTED| && k <= FirstFailing(cols, 0) && StepOk(cols, k)
    ensures k + 1 <= FirstFailing(cols, 0)
    ensures Applied(cols, k + 1) == Applied(cols, k)[CONVERTED[k] := Convert(k, cols[CONVERTED[k]]).value]
  {
  }

  /** Before step `k` its column still holds what it held at the start. */
  lemma Untouched(cols: Columns, k: nat)
    requires k < |CONVERTED| && k <= FirstFailing(cols, 0) && CONVERTED[k] in cols
    ensures Applied(cols, k)[CONVERTED[k]] == cols[CONVERTED[k]]
  {
    ConvertedNames();
    AppliedSpec(cols, k);
  }

  lemma MetadataNamesDiffer()
    ensures "_source" != "_crawled_at"
  {
    assert "_source"[1] != "_crawled_at"[1];
  }

  /** Every row gets the same `_source` and the same `_crawled_at` value. */
  lemma StampSpec(cols: Columns, height: nat, now: DateTime)
    ensures var s := Stamp(cols, height, now);
      && "_source" in s && |s["_source"]| == height
      && (forall i :: 0 <= i < height ==> s["_source"][i] == Text(SOURCE_URL))
      && "_crawled_at" in s && |s["_crawled_at"]| == height
      && (forall i :: 0 <= i < height ==> s["_crawled_at"][i] == Text(FormatTimestamp(now)))
  {
    MetadataNamesDiffer();
  }

  /** Stamping adds the two metadata columns and leaves every other column alone. */
  lemma StampKeeps(cols: Columns, height: nat, now: DateTime)
    ensures var s := Stamp(cols, height, now);
      && s.Keys == cols.Keys + {"_source", "_crawled_at"}
      && (forall c :: c in cols && c != "_source" && c != "_crawled_at" ==> s[c] == cols[c])
  {
  }

  /** An empty feed gives a frame without columns, so `preprocess_data`
      raises KeyError on the first price column. */
  lemma EmptyFeedRaises(now: DateTime)
    ensures PreprocessOutcome(Stamp(LoadFrame([]), 0, now)) == Fail(KeyError("new_price"))
  {
    ConvertedNames();
    PreprocessKeyError(Stamp(LoadFrame([]), 0, now), 0);
  }

  /** A pandas DataFrame: named columns of equal height. */
  class Frame {
    var columns: Columns
    var height: nat

    ghost predicate Valid()
      reads this
    {
      forall c :: c in columns ==> |columns[c]| == height
    }

    constructor (columns: Columns, height: nat)
      requires forall c :: c in columns ==> |columns[c]| == height
      ensures Valid() && this.columns == columns && this.height == height
    {
      this.columns := columns;
      this.height := height;
    }

    /** `df[name] = cells`: add the column, or replace it when it exists. */
    method SetColumn(name: string, cells: seq<Cell>)
      requires Valid() && |cells| == height
      modifies this
      ensures Valid() && height == old(height)
      ensures columns == old(columns)[name := cells]
    {
      columns := columns[name := cells];
    }

    /** `preprocess_data`: stamp the metadata columns, then convert the price
        columns, the rating and the review count in turn, in place. A missing
        column raises KeyError and a review count that is not a whole 64-bit
        number makes the `Int64` cast raise; what was assigned before stays. */
    method PreprocessData(now: DateTime) returns (outcome: Outcome<PreprocessError>)
      requires Valid()
      modifies this
      ensures Valid() && height == old(height)
      ensures var stamped := Stamp(old(columns), old(height), now);
        && columns == Applied(stamped, FirstFailing(stamped, 0))
        && outcome == PreprocessOutcome(stamped)
    {
      AddMetadata(now);
      ghost var stamped := columns;
      var error := ConvertPrices(stamped);
      if error.Some? {
        outcome := Fail(error.value);
        return;
      }
      outcome := ConvertReviews(stamped);
    }

    /** The metadata columns: the source URL and the crawl time on every row. */
    method AddMetadata(now: DateTime)
      requires Valid()
      modifies this
      ensures Valid() && height == old(height)
      ensures columns == Stamp(old(columns), height, now)
    {
      SetColumn("_source", Fill(height, Text(SOURCE_URL)));
      SetColumn("_crawled_at", Fill(height, Text(FormatTimestamp(now))));
    }

    /** The loop over the two price columns; stops at the first missing one. */
    method ConvertPrices(ghost stamped: Columns) returns (error: Option<PreprocessError>)
      requires Valid() && columns == stamped
      modifies this
      ensures Valid() && height == old(height)
      ensures error.None? ==> |PRICE_COLUMNS| <= FirstFailing(stamped, 0) && columns == Applied(stamped, |PRICE_COLUMNS|)
      ensures error.Some? ==> columns == Applied(stamped, FirstFailing(stamped, 0))
      ensures error.Some? ==> Fail(error.value) == PreprocessOutcome(stamped)
    {
      for i := 0 to |PRICE_COLUMNS|
        invariant Valid() && height == old(height)
        invariant i <= FirstFailing(stamped, 0)
        invariant columns == Applied(stamped, i)
      {
        var col := PRICE_COLUMNS[i];
        if col !in columns {
          Halt(stamped, i);
          return Some(KeyError(col));
        }
        Untouched(stamped, i);
        Advance(stamped, i);
        SetColumn(col, Prices(columns[col]));
      }
      return None;
    }

    /** The rating, then the review count with its `Int64` cast. */
    method ConvertReviews(ghost stamped: Columns) returns (outcome: Outcome<PreprocessError>)
      requires Valid() && |PRICE_COLUMNS| <= FirstFailing(stamped, 0) && columns == Applied(stamped, |PRICE_COLUMNS|)
      modifies this
      ensures Valid() && height == old(height)
      ensures columns == Applied(stamped, FirstFailing(stamped, 0))
      ensures outcome == PreprocessOutcome(stamped)
    {
      if "review_rating_number" !in columns {
        Halt(stamped, 2);
        return Fail(KeyError("review_rating_number"));
      }
      Untouched(stamped, 2);
      Advance(stamped, 2);
      SetColumn("review_rating_number", Ratings(columns["review_rating_number"]));
      if "review_amount" !in columns {
        Halt(stamped, 3);
        return Fail(KeyError("review_amount"));
      }
      Untouched(stamped, 3);
      var amounts := ReviewAmounts(columns["review_amount"]);
      if amounts.None? {
        Halt(stamped, 3);
        return Fail(CastError("review_amount"));
      }
      Advance(stamped, 3);
      SetColumn("review_amount", amounts.value);
      return Pass;
    }
  }

  /** A stored table: its columns and its row count. */
  datatype Table = Table(columns: Columns, rows: nat)

  /** The store after writing `t` under `name` with `if_exists="replace"`. */
  function Store(tables: map<string, Table>, name: string, t: Table): map<string, Table>
  {
    tables[name := t]
  }

  /** The named table holds exactly the written rows, whatever it held before;
      every other table is untouched. */
  lemma StoreReplaces(tables: map<string, Table>, name: string, t: Table)
    ensures var r := Store(tables, name, t);
      && r.Keys == tables.Keys + {name} && r[name] == t
      && forall n :: n in tables && n != name ==> r[n] == tables[n]
  {
  }

  /** Writing the same table twice keeps only the second write. */
  lemma StoreLastWriteWins(tables: map<string, Table>, name: string, t1: Table, t2: Table)
    ensures Store(Store(tables, name, t1), name, t2) == Store(tables, name, t2)
  {
  }

  /** The SQLite database as a map from table name to table. */
  class Database {
    var tables: map<string, Table>

    constructor (tables: map<string, Table>)
      ensures this.tables == tables
    {
      this.tables := tables;
    }

    /** `save_to_database`: write the frame under `tableName`, replacing any
        table of that name. */
    method SaveToDatabase(df: Frame, tableName: string)
      modifies this
      ensures tables == Store(old(tables), tableName, Table(df.columns, df.height))
    {
      tables := tables[tableName := Table(df.columns, df.height)];
    }
  }

  /** `main`: load the feed, preprocess it, and save it as the `mercadolivre`
      table. When preprocessing raises nothing is saved. */
  method RunTransform(db: Database, items: seq<Spider.Item>, now: DateTime) returns (outcome: Outcome<PreprocessError>)
    modifies db
    ensures var stamped := Stamp(LoadFrame(items), |items|, now);
      && outcome == PreprocessOutcome(stamped)
      && (outcome.Pass? ==> db.tables == Store(old(db.tables), TABLE_NAME, Table(Applied(stamped, FirstFailing(stamped, 0)), |items|)))
      && (outcome.Fail? ==> db.tables == old(db.tables))
  {
    var df := new Frame(LoadFrame(items), |items|);
    outcome := PreprocessAndSave(db, df, now);
  }

  /** The part of `main` after loading: preprocess the frame and save it only
      when preprocessing raised nothing. */
  method PreprocessAndSave(db: Database, df: Frame, now: DateTime) returns (outcome: Outcome<PreprocessError>)
    requires df.Valid()
    modifies db, df
    ensures var stamped := Stamp(old(df.columns), old(df.height), now);
      && outcome == PreprocessOutcome(stamped)
      && (outcome.Pass? ==> db.tables == Store(old(db.tables), TABLE_NAME, Table(Applied(stamped, FirstFailing(stamped, 0)), old(df.height))))
      && (outcome.Fail? ==> db.tables == old(db.tables))
  {
    outcome := df.PreprocessData(now);
    if outcome.Pass? {
      db.SaveToDatabase(df, TABLE_NAME);
    }
  }
}
