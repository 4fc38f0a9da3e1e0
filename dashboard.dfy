/** The non-interface helpers of the Streamlit dashboard (dashboard/app.py):
    Brazilian-Real currency text, the sidebar row filter, and the title-casing
    of brand names when the table is loaded. */
module Dashboard {
  import opened Wrappers
  import opened Text
  import opened Decimals

  // ------------------------------------------------------------ currency

  /** `d` with `sep` inserted between every group of three digits counted
      from the right (the `_` grouping option of Python's format mini-language). */
  function Group(d: string, sep: char): string
    decreases |d|
  {
    if |d| <= 3 then d else Group(d[..|d| - 3], sep) + [sep] + d[|d| - 3..]
  }

  /** The two digits after the decimal point. */
  function Cents(n: nat): string
  {
    ZeroPad(NatToDigits(n), 2)
  }

  function Sign(cents: int): string
  {
    if cents < 0 then "-" else ""
  }

  /** `f"{value:_.2f}"` for `value == cents / 100`. */
  function FixedGrouped(cents: int): string
  {
    Sign(cents) + Group(NatToDigits(Abs(cents) / 100), '_') + "." + Cents(Abs(cents) % 100)
  }

  /** `format_currency`: the grouped two-decimal text with '.' turned into ','
      and then '_' turned into '.'. */
  function FormatCurrency(cents: int): string
  {
    "R$ " + ReplaceChar(ReplaceChar(FixedGrouped(cents), '.', ','), '_', '.')
  }

  /** Separators sit exactly at every fourth position from the right end, every
      other character is a digit and the text starts with one: a leading group
      of one to three digits, then groups of exactly three. */
  predicate GroupedBy(g: string, sep: char)
  {
    && g != [] && IsDigit(g[0])
    && (forall i :: 0 <= i < |g| ==> (g[i] == sep <==> (|g| - i) % 4 == 0))
    && (forall i :: 0 <= i < |g| && g[i] != sep ==> IsDigit(g[i]))
  }

  lemma {:induction false} GroupShape(d: string, sep: char)
    requires d != [] && AllDigits(d) && !IsDigit(sep)
    ensures |Group(d, sep)| == |d| + (|d| - 1) / 3
    ensures GroupedBy(Group(d, sep), sep)
    decreases |d|
  {
    if |d| > 3 {
      var front, back := d[..|d| - 3], d[|d| - 3..];
      assert AllDigits(front) && AllDigits(back) by { AllDigitsSlices(d, |d| - 3); }
      GroupShape(front, sep);
      assert Group(d, sep) == Group(front, sep) + [sep] + back;
      GroupedAppend(Group(front, sep), back, sep);
    }
  }

  /** A grouped text followed by a separator and three digits is grouped. */
  lemma GroupedAppend(g: string, back: string, sep: char)
    requires GroupedBy(g, sep) && |back| == 3 && AllDigits(back) && !IsDigit(sep)
    ensures GroupedBy(g + [sep] + back, sep)
  {
    var h := g + [sep] + back;
    forall i | 0 <= i < |h|
      ensures (h[i] == sep <==> (|h| - i) % 4 == 0)
      ensures h[i] != sep ==> IsDigit(h[i])
    {
      if i < |g| {
        assert h[i] == g[i];
        assert |h| - i == (|g| - i) + 4;
      } else if i > |g| {
        assert h[i] == back[i - |g| - 1];
      }
    }
  }

  /** `s` without the characters in `chars`. */
  function Remove(s: string, chars: set<char>): string
  {
    if s == [] then [] else (if s[0] in chars then [] else [s[0]]) + Remove(s[1..], chars)
  }

  lemma {:induction false} RemoveAppend(a: string, b: string, chars: set<char>)
    ensures Remove(a + b, chars) == Remove(a, chars) + Remove(b, chars)
  {
    if a == [] {
      assert a + b == b;
    } else {
      assert (a + b)[0] == a[0];
      assert (a + b)[1..] == a[1..] + b;
      RemoveAppend(a[1..], b, chars);
    }
  }

  lemma {:induction false} RemoveNone(s: string, chars: set<char>)
    requires forall i :: 0 <= i < |s| ==> s[i] !in chars
    ensures Remove(s, chars) == s
  {
    if s != [] {
      RemoveNone(s[1..], chars);
    }
  }

  /** Dropping the separators (and any other non-digits in `chars`) gives back the digits. */
  lemma {:induction false} GroupRemove(d: string, sep: char, chars: set<char>)
    requires AllDigits(d) && sep in chars && forall c :: c in chars ==> !IsDigit(c)
    ensures Remove(Group(d, sep), chars) == d
    decreases |d|
  {
    if |d| <= 3 {
      RemoveNone(d, chars);
    } else {
      var front, back := d[..|d| - 3], d[|d| - 3..];
      assert AllDigits(front) && AllDigits(back) by { AllDigitsSlices(d, |d| - 3); }
      assert Group(d, sep) == Group(front, sep) + [sep] + back;
      assert Remove(Group(front, sep), chars) == front by { GroupRemove(front, sep, chars); }
      assert Remove(back, chars) == back by { RemoveNone(back, chars); }
      assert Remove([sep], chars) == [];
      RemoveThree(Group(front, sep), [sep], back, chars);
      assert front + [] + back == d by { SplitJoin(d, |d| - 3); }
    }
  }

  /** Removing from three joined parts removes from each part. */
  lemma RemoveThree(a: string, b: string, c: string, chars: set<char>)
    ensures Remove(a + b + c, chars) == Remove(a, chars) + Remove(b, chars) + Remove(c, chars)
  {
    RemoveAppend(a + b, c, chars);
    RemoveAppend(a, b, chars);
  }

  /** Turning one separator into another regroups the same digits. */
  lemma {:induction false} GroupReplace(d: string, a: char, b: char)
    requires AllDigits(d) && !IsDigit(a)
    ensures ReplaceChar(Group(d, a), a, b) == Group(d, b)
    decreases |d|
  {
    if |d| <= 3 {
      ReplaceAbsent(d, a, b);
    } else {
      var front, back := d[..|d| - 3], d[|d| - 3..];
      AllDigitsSlices(d, |d| - 3);
      GroupReplace(front, a, b);
      ReplaceCharAppend(Group(front, a) + [a], back, a, b);
      ReplaceCharAppend(Group(front, a), [a], a, b);
      ReplaceAbsent(back, a, b);
    }
  }

  lemma CentsSpec(n: nat)
    requires n < 100
    ensures |Cents(n)| == 2 && AllDigits(Cents(n)) && DigitsToNat(Cents(n)) == n
  {
    PaddedNumeral(n, 2);
    NatToDigitsLength(n, 2);
  }

  /** A grouped digit string holds no character other than digits and `sep`. */
  lemma GroupChars(d: string, sep: char, c: char)
    requires AllDigits(d) && !IsDigit(sep) && !IsDigit(c) && c != sep
    ensures forall i :: 0 <= i < |Group(d, sep)| ==> Group(d, sep)[i] != c
  {
    if d != [] {
      GroupShape(d, sep);
    }
  }

  /** Replacing in four joined parts replaces in each part. */
  lemma ReplaceJoin(a: string, b: string, c: string, d: string, from: char, to: char)
    ensures ReplaceChar(a + b + c + d, from, to) ==
      ReplaceChar(a, from, to) + ReplaceChar(b, from, to) + ReplaceChar(c, from, to) + ReplaceChar(d, from, to)
  {
    ReplaceCharAppend(a + b + c, d, from, to);
    ReplaceCharAppend(a + b, c, from, to);
    ReplaceCharAppend(a, b, from, to);
  }

  /** The first replacement turns only the decimal point into ','. */
  lemma ReplacePoint(sign: string, d: string, f: string)
    requires sign == "" || sign == "-"
    requires AllDigits(d) && AllDigits(f)
    ensures ReplaceChar(sign + Group(d, '_') + "." + f, '.', ',') == sign + Group(d, '_') + "," + f
  {
    var g := Group(d, '_');
    assert ReplaceChar(sign + g + "." + f, '.', ',') ==
      ReplaceChar(sign, '.', ',') + ReplaceChar(g, '.', ',') + ReplaceChar(".", '.', ',') + ReplaceChar(f, '.', ',')
    by { ReplaceJoin(sign, g, ".", f, '.', ','); }
    assert ReplaceChar(".", '.', ',') == ",";
    assert ReplaceChar(sign, '.', ',') == sign by { ReplaceAbsent(sign, '.', ','); }
    assert ReplaceChar(g, '.', ',') == g by {
      GroupChars(d, '_', '.');
      ReplaceAbsent(g, '.', ',');
    }
    assert ReplaceChar(f, '.', ',') == f by { ReplaceAbsent(f, '.', ','); }
  }

  /** The second replacement turns the '_' separators into '.'. */
  lemma ReplaceUnderscore(sign: string, d: string, f: string)
    requires sign == "" || sign == "-"
    requires AllDigits(d) && AllDigits(f)
    ensures ReplaceChar(sign + Group(d, '_') + "," + f, '_', '.') == sign + Group(d, '.') + "," + f
  {
    var g := Group(d, '_');
    assert ReplaceChar(sign + g + "," + f, '_', '.') ==
      ReplaceChar(sign, '_', '.') + ReplaceChar(g, '_', '.') + ReplaceChar(",", '_', '.') + ReplaceChar(f, '_', '.')
    by { ReplaceJoin(sign, g, ",", f, '_', '.'); }
    assert ReplaceChar(",", '_', '.') == ",";
    assert ReplaceChar(sign, '_', '.') == sign by { ReplaceAbsent(sign, '_', '.'); }
    assert ReplaceChar(Group(d, '_'), '_', '.') == Group(d, '.') by { GroupReplace(d, '_', '.'); }
    assert ReplaceChar(f, '_', '.') == f by { ReplaceAbsent(f, '_', '.'); }
  }

  /** The currency text is "R$ ", a '-' for a negative value, the integer part
      grouped by '.', a ',' and the two decimals. */
  lemma FormatCurrencyShape(cents: int)
    ensures FormatCurrency(cents) == "R$ " + (Sign(cents) + Group(NatToDigits(Abs(cents) / 100), '.') + "," + Cents(Abs(cents) % 100))
  {
    var sign, whole, fraction := Sign(cents), NatToDigits(Abs(cents) / 100), Cents(Abs(cents) % 100);
    assert AllDigits(fraction) by { CentsSpec(Abs(cents) % 100); }
    CurrencyParts(sign, whole, fraction);
  }

  /** Both replacements applied to a sign, an '_'-grouped integer part, a '.'
      and a digit fraction give the '.'-grouped part and a ','. */
  lemma CurrencyParts(sign: string, d: string, f: string)
    requires sign == "" || sign == "-"
    requires AllDigits(d) && AllDigits(f)
    ensures ReplaceChar(ReplaceChar(sign + Group(d, '_') + "." + f, '.', ','), '_', '.') == sign + Group(d, '.') + "," + f
  {
    ReplacePoint(sign, d, f);
    ReplaceUnderscore(sign, d, f);
  }

  /** In the currency text the integer part has a leading group of one to three
      digits and then groups of exactly three, and there are exactly two decimals. */
  lemma FormatCurrencyGroups(cents: int)
    ensures GroupedBy(Group(NatToDigits(Abs(cents) / 100), '.'), '.')
    ensures |Cents(Abs(cents) % 100)| == 2 && AllDigits(Cents(Abs(cents) % 100))
  {
    CentsSpec(Abs(cents) % 100);
    GroupShape(NatToDigits(Abs(cents) / 100), '.');
  }

  /** The digits of the amount in cents: the integer part, then the two decimals. */
  function CentDigits(cents: int): string
  {
    NatToDigits(Abs(cents) / 100) + Cents(Abs(cents) % 100)
  }

  /** Those digits denote the amount in cents. */
  lemma CentDigitsValue(cents: int)
    ensures AllDigits(CentDigits(cents)) && DigitsToNat(CentDigits(cents)) == Abs(cents)
  {
    var whole, fraction := NatToDigits(Abs(cents) / 100), Cents(Abs(cents) % 100);
    CentsSpec(Abs(cents) % 100);
    AllDigitsAppend(whole, fraction);
    DigitsToNatAppend(whole, fraction);
    NatToDigitsValue(Abs(cents) / 100);
    assert Pow10(2) == 100;
  }

  /** Removing from four joined parts removes from each part. */
  lemma RemoveJoin(a: string, b: string, c: string, d: string, chars: set<char>)
    ensures Remove(a + b + c + d, chars) == Remove(a, chars) + Remove(b, chars) + Remove(c, chars) + Remove(d, chars)
  {
    RemoveAppend(a + b + c, d, chars);
    RemoveAppend(a + b, c, chars);
    RemoveAppend(a, b, chars);
  }

  /** Removing "R$ ", the '.' separators and the ',' from the currency text
      leaves the sign and the digits of the amount in cents. */
  lemma FormatCurrencyDigits(cents: int)
    ensures FormatCurrency(cents)[..3] == "R$ "
    ensures Remove(FormatCurrency(cents)[3..], {'.', ','}) == Sign(cents) + CentDigits(cents)
  {
    var sign, whole, fraction := Sign(cents), NatToDigits(Abs(cents) / 100), Cents(Abs(cents) % 100);
    var body := sign + Group(whole, '.') + "," + fraction;
    assert FormatCurrency(cents) == "R$ " + body by { FormatCurrencyShape(cents); }
    assert ("R$ " + body)[..3] == "R$ " && ("R$ " + body)[3..] == body;
    assert Remove(body, {'.', ','}) == sign + (whole + fraction) by {
      CentsSpec(Abs(cents) % 100);
      CurrencyDigits(sign, whole, fraction, {'.', ','});
      Associative(sign, whole, fraction);
    }
  }

  /** Proof step: regrouping a concatenation of three strings. */
  lemma Associative(a: string, b: string, c: string)
    ensures a + b + c == a + (b + c)
  {
  }

  /** Removing the separators from the parts of the currency text after "R$ "
      leaves the sign and the digits. */
  lemma CurrencyDigits(sign: string, d: string, f: string, chars: set<char>)
    requires sign == "" || sign == "-"
    requires AllDigits(d) && AllDigits(f)
    requires '.' in chars && ',' in chars && '-' !in chars && forall c :: c in chars ==> !IsDigit(c)
    ensures Remove(sign + Group(d, '.') + "," + f, chars) == sign + d + f
  {
    var g := Group(d, '.');
    assert Remove(g, chars) == d by { GroupRemove(d, '.', chars); }
    assert Remove(sign, chars) == sign by { RemoveNone(sign, chars); }
    assert Remove(f, chars) == f by { RemoveNone(f, chars); }
    assert Remove(",", chars) == [] by { assert ","[1..] == []; }
    RemoveParts(sign, g, ",", f, sign, d, [], f, chars);
    assert sign + d + [] + f == sign + d + f;
  }

  /** Removing from four joined parts, each of whose removals is known. */
  lemma RemoveParts(a: string, b: string, c: string, e: string, a': string, b': string, c': string, e': string, chars: set<char>)
    requires Remove(a, chars) == a' && Remove(b, chars) == b' && Remove(c, chars) == c' && Remove(e, chars) == e'
    ensures Remove(a + b + c + e, chars) == a' + b' + c' + e'
  {
    RemoveJoin(a, b, c, e, chars);
  }

  /** 123456 cents is written "R$ 1.234,56". */
  lemma FormatCurrencyExample()
    ensures FormatCurrency(123456) == "R$ 1.234,56"
  {
    ExampleParts();
    LiteralJoin();
  }

  /** Proof step: the literal pieces of the example join into its text. */
  lemma LiteralJoin()
    ensures "R$ " + ("" + "1.234" + "," + "56") == "R$ 1.234,56"
  {
  }

  lemma ExampleParts()
    ensures FormatCurrency(123456) == "R$ " + ("" + "1.234" + "," + "56")
  {
    assert Sign(123456) == "" && Abs(123456) / 100 == 1234 && Abs(123456) % 100 == 56;
    Numeral1234();
    Numeral56();
    FormatCurrencyShape(123456);
  }

  /** Proof step: the digits of 1234 and their grouping. */
  lemma Numeral1234()
    ensures Group(NatToDigits(1234), '.') == "1.234"
  {
    assert NatToDigits(1) == "1";
    assert NatToDigits(12) == "12";
    assert NatToDigits(123) == "123";
    assert NatToDigits(1234) == "1234";
    assert "1234"[..1] == "1" && "1234"[1..] == "234";
  }

  /** Proof step: the digits of 56. */
  lemma Numeral56()
    ensures Cents(56) == "56"
  {
    assert NatToDigits(5) == "5";
    assert NatToDigits(56) == "56";
  }

  // ------------------------------------------------------------ loading

  /** One row of the `mercadolivre` table as the dashboard reads it, reduced to
      the columns it filters and shows by name; a null cell is `None`. */
  datatype Listing = Listing(brand: Option<string>, name: Option<string>, newPrice: Option<Decimal>, rating: Option<Decimal>)

  predicate IsUpper(c: char) { 'A' <= c <= 'Z' }
  predicate IsLower(c: char) { 'a' <= c <= 'z' }
  predicate IsLetter(c: char) { IsUpper(c) || IsLower(c) }

  function Upper(c: char): (r: char)
    ensures IsLetter(r) <==> IsLetter(c)
    ensures IsLetter(c) ==> IsUpper(r)
    ensures !IsLetter(c) ==> r == c
  {
    if IsLower(c) then (c as int - 32) as char else c
  }

  function Lower(c: char): (r: char)
    ensures IsLetter(r) <==> IsLetter(c)
    ensures IsLetter(c) ==> IsLower(r)
    ensures !IsLetter(c) ==> r == c
  {
    if IsUpper(c) then (c as int + 32) as char else c
  }

  /** Changing the case of a letter twice keeps only the last change. */
  lemma CaseLast(c: char)
    ensures Lower(Lower(c)) == Lower(c) && Lower(Upper(c)) == Lower(c)
    ensures Upper(Upper(c)) == Upper(c) && Upper(Lower(c)) == Upper(c)
  {
  }

  /** `str.title` on the rest of a string, `afterLetter` telling whether the
      character before it is a letter. */
  function TitleFrom(s: string, afterLetter: bool): (r: string)
    ensures |r| == |s|
  {
    if s == [] then []
    else [if afterLetter then Lower(s[0]) else Upper(s[0])] + TitleFrom(s[1..], IsLetter(s[0]))
  }

  /** `str.title`: every letter that follows a letter is lower-cased, every
      other letter upper-cased. */
  function Title(s: string): (r: string)
    ensures |r| == |s|
  {
    TitleFrom(s, false)
  }

  lemma {:induction false} TitleFromAt(s: string, afterLetter: bool, i: nat)
    requires i < |s|
    ensures TitleFrom(s, afterLetter)[i] ==
      if (if i == 0 then afterLetter else IsLetter(s[i - 1])) then Lower(s[i]) else Upper(s[i])
  {
    if i > 0 {
      TitleFromAt(s[1..], IsLetter(s[0]), i - 1);
      assert s[1..][i - 1] == s[i];
      if i > 1 {
        assert s[1..][i - 2] == s[i - 1];
      }
    }
  }

  /** Each character of the title-cased text: a letter after a letter is lower
      case, a letter at the start or after a non-letter is upper case, any other
      character is kept. */
  lemma TitleAt(s: string, i: nat)
    requires i < |s|
    ensures i > 0 && IsLetter(s[i - 1]) ==> Title(s)[i] == Lower(s[i])
    ensures (i == 0 || !IsLetter(s[i - 1])) ==> Title(s)[i] == Upper(s[i])
    ensures IsLetter(Title(s)[i]) <==> IsLetter(s[i])
    ensures !IsLetter(s[i]) ==> Title(s)[i] == s[i]
  {
    TitleFromAt(s, false, i);
  }

  /** Title-casing a title-cased text changes nothing. */
  lemma TitleIdempotent(s: string)
    ensures Title(Title(s)) == Title(s)
  {
    var t := Title(s);
    forall i | 0 <= i < |s|
      ensures Title(t)[i] == t[i]
    {
      TitleAt(s, i);
      TitleAt(t, i);
      CaseLast(s[i]);
      if i > 0 {
        TitleAt(s, i - 1);
      }
    }
  }

  /** `Series.str.title` on the brand column: a null cell stays null. */
  function TitleBrand(brand: Option<string>): (r: Option<string>)
    ensures r.None? <==> brand.None?
    ensures brand.Some? ==> |r.value| == |brand.value|
  {
    if brand.None? then None else Some(Title(brand.value))
  }

  /** The rows with their brand title-cased, in order. */
  function TitleBrands(rows: seq<Listing>): (r: seq<Listing>)
    ensures |r| == |rows|
  {
    if rows == [] then [] else [rows[0].(brand := TitleBrand(rows[0].brand))] + TitleBrands(rows[1..])
  }

  lemma {:induction false} TitleBrandsAt(rows: seq<Listing>, i: nat)
    requires i < |rows|
    ensures TitleBrands(rows)[i] == rows[i].(brand := TitleBrand(rows[i].brand))
  {
    if i > 0 {
      TitleBrandsAt(rows[1..], i - 1);
    }
  }

  /** Why reading the listings failed: the `sqlite3` connection could not be
      opened, or the query on an open connection failed (pandas re-raises that
      as its own `DatabaseError`, which is not a `sqlite3.Error`). */
  datatype LoadError = ConnectError(message: string) | QueryError(message: string)

  /** `load_data` given what connecting and querying gave: the rows with their
      brands title-cased; no rows at all when the connection failed, the only
      error it catches; a failed query is raised on to the caller. */
  function LoadData(read: Result<seq<Listing>, LoadError>): (r: Result<seq<Listing>, LoadError>)
    ensures read.Err? && read.error.ConnectError? ==> r == Ok([])
    ensures read.Err? && read.error.QueryError? ==> r == read
    ensures read.Ok? ==> r.Ok? && |r.value| == |read.value|
  {
    match read
    case Ok(rows) => Ok(TitleBrands(rows))
    case Err(ConnectError(_)) => Ok([])
    case Err(QueryError(_)) => read
  }

  /** Loading keeps every row in place and changes nothing but the brand, which
      it title-cases. */
  lemma LoadDataRows(rows: seq<Listing>, i: nat)
    requires i < |rows|
    ensures var r := LoadData(Ok(rows)).value;
      r[i].name == rows[i].name && r[i].newPrice == rows[i].newPrice && r[i].rating == rows[i].rating
    ensures var r := LoadData(Ok(rows)).value;
      (r[i].brand.None? <==> rows[i].brand.None?) &&
      (rows[i].brand.Some? ==> r[i].brand.value == Title(rows[i].brand.value))
  {
    TitleBrandsAt(rows, i);
  }

  /** Loading rows that were already loaded changes nothing. */
  lemma LoadDataIdempotent(rows: seq<Listing>)
    ensures LoadData(LoadData(Ok(rows))) == LoadData(Ok(rows))
  {
    var once := TitleBrands(rows);
    forall i | 0 <= i < |rows|
      ensures TitleBrands(once)[i] == once[i]
    {
      TitleBrandsAt(rows, i);
      TitleBrandsAt(once, i);
      if rows[i].brand.Some? {
        TitleIdempotent(rows[i].brand.value);
      }
    }
    assert TitleBrands(once) == once;
  }

  // ------------------------------------------------------------ filters

  /** A row mask of the sidebar: the brand `isin` test, the price and rating
      comparisons, or both in turn. */
  datatype Mask = Brands(selected: seq<string>) | Ranges(low: Decimal, high: Decimal, minRating: Decimal) | And(first: Mask, second: Mask)

  /** The row passes the mask. A null brand is in no selection, and a null price
      or rating fails every comparison, as NaN does. */
  predicate Keeps(m: Mask, row: Listing)
  {
    match m
    case Brands(selected) => row.brand.Some? && row.brand.value in selected
    case Ranges(low, high, minRating) =>
      row.newPrice.Some? && row.rating.Some? &&
      Le(low, row.newPrice.value) && Le(row.newPrice.value, high) && Le(minRating, row.rating.value)
    case And(first, second) => Keeps(first, row) && Keeps(second, row)
  }

  /** `df[mask]`: the rows that pass, in their order. */
  function Where(rows: seq<Listing>, m: Mask): (r: seq<Listing>)
    ensures |r| <= |rows|
  {
    if rows == [] then [] else (if Keeps(m, rows[0]) then [rows[0]] else []) + Where(rows[1..], m)
  }

  /** `a` is `b` with some rows dropped and the rest in their order. */
  predicate SubsequenceOf(a: seq<Listing>, b: seq<Listing>)
    decreases |b|
  {
    if a == [] then true
    else if b == [] then false
    else (a[0] == b[0] && SubsequenceOf(a[1..], b[1..])) || SubsequenceOf(a, b[1..])
  }

  /** A mask keeps the rows that pass, as many times as they occur, and drops
      every other row. */
  lemma {:induction false} WhereCount(rows: seq<Listing>, m: Mask, x: Listing)
    ensures multiset(Where(rows, m))[x] == if Keeps(m, x) then multiset(rows)[x] else 0
  {
    if rows != [] {
      var head := if Keeps(m, rows[0]) then [rows[0]] else [];
      assert Where(rows, m) == head + Where(rows[1..], m);
      assert multiset(rows) == multiset([rows[0]]) + multiset(rows[1..]) by {
        assert rows == [rows[0]] + rows[1..];
      }
      WhereCount(rows[1..], m, x);
    }
  }

  /** A mask keeps the order of the rows it keeps. */
  lemma {:induction false} WhereSubsequence(rows: seq<Listing>, m: Mask)
    ensures SubsequenceOf(Where(rows, m), rows)
  {
    if rows != [] {
      WhereSubsequence(rows[1..], m);
      var rest := Where(rows[1..], m);
      if Keeps(m, rows[0]) {
        assert Where(rows, m) == [rows[0]] + rest;
        assert ([rows[0]] + rest)[1..] == rest;
      } else {
        assert Where(rows, m) == rest;
        SubsequenceDrop(rest, rows);
      }
    }
  }

  lemma SubsequenceDrop(a: seq<Listing>, b: seq<Listing>)
    requires b != [] && SubsequenceOf(a, b[1..])
    ensures SubsequenceOf(a, b)
  {
  }

  /** Applying one mask after another is applying both at once. */
  lemma {:induction false} WhereWhere(rows: seq<Listing>, m1: Mask, m2: Mask)
    ensures Where(Where(rows, m1), m2) == Where(rows, And(m1, m2))
  {
    if rows != [] {
      WhereWhere(rows[1..], m1, m2);
      var rest := Where(rows[1..], m1);
      if Keeps(m1, rows[0]) {
        assert Where(rows, m1) == [rows[0]] + rest;
        assert ([rows[0]] + rest)[1..] == rest;
      } else {
        assert Where(rows, m1) == rest;
      }
    }
  }

  /** The sidebar's choices: the selected brands, the price range and the
      minimum rating. */
  datatype Filters = Filters(brands: seq<string>, low: Decimal, high: Decimal, minRating: Decimal)

  /** `display_data_filters` once the choices are made: the brand mask only when
      some brand is selected, then the price and rating mask. */
  function DisplayFilter(rows: seq<Listing>, f: Filters): (r: seq<Listing>)
    ensures |r| <= |rows|
  {
    var byBrand := if f.brands != [] then Where(rows, Brands(f.brands)) else rows;
    Where(byBrand, Ranges(f.low, f.high, f.minRating))
  }

  /** A row passes the filters when its brand is selected, or no brand is, and
      its price lies in the range and its rating reaches the minimum. */
  predicate Passes(row: Listing, f: Filters)
  {
    (f.brands == [] || (row.brand.Some? && row.brand.value in f.brands)) &&
    row.newPrice.Some? && row.rating.Some? &&
    Le(f.low, row.newPrice.value) && Le(row.newPrice.value, f.high) && Le(f.minRating, row.rating.value)
  }

  /** The filtered table holds each row that passes, as often as the table does,
      and no other row. */
  lemma FilterKeeps(rows: seq<Listing>, f: Filters, x: Listing)
    ensures multiset(DisplayFilter(rows, f))[x] == if Passes(x, f) then multiset(rows)[x] else 0
    ensures x in DisplayFilter(rows, f) <==> x in rows && Passes(x, f)
  {
    var ranges := Ranges(f.low, f.high, f.minRating);
    if f.brands != [] {
      WhereWhere(rows, Brands(f.brands), ranges);
      WhereCount(rows, And(Brands(f.brands), ranges), x);
    } else {
      WhereCount(rows, ranges, x);
    }
  }

  /** The filtered table keeps the order of the table. */
  lemma FilterSubsequence(rows: seq<Listing>, f: Filters)
    ensures SubsequenceOf(DisplayFilter(rows, f), rows)
  {
    var ranges := Ranges(f.low, f.high, f.minRating);
    if f.brands != [] {
      WhereWhere(rows, Brands(f.brands), ranges);
      WhereSubsequence(rows, And(Brands(f.brands), ranges));
    } else {
      WhereSubsequence(rows, ranges);
    }
  }

  /** A row with a null price or a null rating is never shown. */
  lemma NullNeverPasses(rows: seq<Listing>, f: Filters, x: Listing)
    requires x.newPrice.None? || x.rating.None?
    ensures x !in DisplayFilter(rows, f)
  {
    FilterKeeps(rows, f, x);
  }

  /** With no brand selected the brand of a row does not matter. */
  lemma EmptyBrandsNoRestriction(rows: seq<Listing>, f: Filters)
    requires f.brands == []
    ensures DisplayFilter(rows, f) == Where(rows, Ranges(f.low, f.high, f.minRating))
  {
  }

  /** Filtering the filtered table again with the same choices changes nothing. */
  lemma FilterIdempotent(rows: seq<Listing>, f: Filters)
    ensures DisplayFilter(DisplayFilter(rows, f), f) == DisplayFilter(rows, f)
  {
    var once := DisplayFilter(rows, f);
    forall x
      ensures x in once ==> Passes(x, f)
    {
      FilterKeeps(rows, f, x);
    }
    FilterAllPass(once, f);
  }

  /** Filtering rows that all pass keeps them all. */
  lemma {:induction false} FilterAllPass(rows: seq<Listing>, f: Filters)
    requires forall x :: x in rows ==> Passes(x, f)
    ensures DisplayFilter(rows, f) == rows
  {
    var ranges := Ranges(f.low, f.high, f.minRating);
    forall i | 0 <= i < |rows|
      ensures Passes(rows[i], f)
    {
      assert rows[i] in rows;
    }
    if f.brands != [] {
      WhereWhere(rows, Brands(f.brands), ranges);
      KeepAll(rows, And(Brands(f.brands), ranges));
    } else {
      KeepAll(rows, ranges);
    }
  }

  lemma {:induction false} KeepAll(rows: seq<Listing>, m: Mask)
    requires forall i :: 0 <= i < |rows| ==> Keeps(m, rows[i])
    ensures Where(rows, m) == rows
  {
    if rows != [] {
      KeepAll(rows[1..], m);
      assert rows == [rows[0]] + rows[1..];
    }
  }
}
