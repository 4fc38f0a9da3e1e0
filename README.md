# mercadolivre_scrapy, modelled in Dafny

The system scrapes refrigerator listings from the Mercado Livre search pages in three stages.
1. A Scrapy spider reads the result pages. It turns every product container into one fixed-shape record. It follows the "next page" link until a budget of 20 pages is spent.
2. A transform script loads the exported records into a DataFrame. It stamps each row with the source URL and the crawl time. It converts the prices, the rating and the review count to numbers. It then writes the frame as the `mercadolivre` table of a SQLite database, replacing any earlier table.
3. A Streamlit dashboard reads that table. On load it title-cases the brand names. It formats money as Brazilian Reais and filters rows by brand, price range and minimum rating.

The model follows the source's own form.

**Spider** (`spider.dfy`). The per-product record is pure functions: `Extract` and `ReviewAmount`. The spider is a class, `MercadolivreSpider`, whose mutable `pageCount` is advanced by `Parse` and `ParseNextPages`. The Scrapy engine is the method `Crawl`. It feeds the spider a site, given as the sequence of pages the successive requests receive. It is proved against the functions `Requests` and `PagesItems`, which define the crawl by recursion over the site.

**Transform** (`transform.dfy`). Cell conversions are pure functions over exact decimals, in `decimals.dfy`. A DataFrame is a class, `Frame`, whose `columns` map the methods reassign. `preprocess_data` is the method `Frame.PreprocessData`, with the price loop kept as a loop. The database is a class, `Database`, holding a map from table name to table. `Timestamps` gives the `%Y-%m-%d %H:%M:%S` text.

**Dashboard** (`dashboard.dfy`). The dashboard helpers are pure:
- the currency text, computed over integer cents;
- the row filter, as `df[mask]` selections;
- the ASCII title-casing of brands.

Two behaviours of the code are worth noting.
- `"1.234,56"` becomes `"1.234.56"` after the ',' → '.' replacement. `pd.to_numeric` cannot parse that, so the cell is null (`Transform.ConvertPriceThousands`).
- The `Int64` cast of the review count raises when a count parses to a fraction, and that raise makes `preprocess_data` fail (`Transform.PreprocessCastError`).

## Model

| member | source | states |
|---|---|---|
| Spider.Extract | mercadolivre_scrapy/extract/spiders/mercadolivre.py:55-69 | each of the five optional fields of a record is None exactly when its layout's selector matches nothing in the product; a product with no review element gets the review amount "0" |
| Spider.MissingElement | mercadolivre_scrapy/extract/spiders/mercadolivre.py:57-68 | a product that lacks the element of one field still yields a record; that field alone becomes None (the review amount "0") and every other field is unchanged |
| Spider.ReviewAmountSpec | mercadolivre_scrapy/extract/spiders/mercadolivre.py:66-68 | a missing or empty review element gives "0"; any other text loses exactly its maximal leading and trailing runs of '(' and ')', so "()" gives "" |
| Spider.ExtractAll | mercadolivre_scrapy/extract/spiders/mercadolivre.py:55 | exactly one record per product container |
| Spider.ExtractAllPointwise | mercadolivre_scrapy/extract/spiders/mercadolivre.py:97-117 | the i-th record is the one extracted from the i-th container, in document order |
| Spider.FeedObject | mercadolivre_scrapy/extract/spiders/mercadolivre.py:56-69 | the exported object has exactly the keys brand, name, old_price, new_price, review_rating_number, review_amount, each holding its record field |
| Spider.MercadolivreSpider.constructor | mercadolivre_scrapy/extract/spiders/mercadolivre.py:37-38 | the page counter starts at 1 with the given budget |
| Spider.MercadolivreSpider.FollowNext | mercadolivre_scrapy/extract/spiders/mercadolivre.py:71-80 | a next page is requested exactly when the counter is under budget and the link exists; the counter goes up by one exactly then and stays within the budget |
| Spider.MercadolivreSpider.ParseWith | mercadolivre_scrapy/extract/spiders/mercadolivre.py:52-80 | a callback yields the page's records and the follow request under the pagination rule |
| Spider.MercadolivreSpider.Parse | mercadolivre_scrapy/extract/spiders/mercadolivre.py:40-80 | the landing page is read with the first layout |
| Spider.MercadolivreSpider.ParseNextPages | mercadolivre_scrapy/extract/spiders/mercadolivre.py:82-128 | every followed page is read with the second layout |
| Spider.Crawl | mercadolivre_scrapy/extract/spiders/mercadolivre.py:40-128 | the engine-driven crawl issues `Requests(site, maxPages, 1)` requests, between 1 and max(1, budget); the feed is the records of the pages read, in page order, the first page in the first layout and the rest in the second |
| Spider.CrawlBudget | mercadolivre_scrapy/extract/spiders/mercadolivre.py:72-78 | the final page counter is at least the starting counter and at most the larger of the budget and the starting counter |
| Spider.ShippedBudget | mercadolivre_scrapy/extract/spiders/mercadolivre.py:37-38 | the spider as shipped, with a budget of 20 pages, issues between 1 and 20 requests, and exactly 20 when at least 20 pages each link onward |
| Spider.CrawlStopRule | mercadolivre_scrapy/extract/spiders/mercadolivre.py:72-77 | the crawl stops at the first page that has no next link or that is reached with the counter at the budget; every earlier page was followed |
| Spider.CrawlCapped | mercadolivre_scrapy/extract/spiders/mercadolivre.py:120-126 | when every page links onward and the site has at least `maxPages` pages, exactly `maxPages` requests are issued |
| Spider.CrawlIgnoresPagesPastBudget | mercadolivre_scrapy/extract/spiders/mercadolivre.py:72 | pages past the budget affect neither the request count nor the records |
| Spider.RequestsIgnorePagesPastBudget | mercadolivre_scrapy/extract/spiders/mercadolivre.py:120 | the request count does not depend on pages past the budget |
| Spider.PagesItemsPrefix | mercadolivre_scrapy/extract/spiders/mercadolivre.py:55-80 | the records of the first n pages depend on those pages only |
| Spider.ThreePagesBudgetTwo | mercadolivre_scrapy/extract/spiders/mercadolivre.py:72-80 | with a budget of 2, a three-page site is crawled for two pages: the landing page in the first layout, then one page in the second |
| Spider.RequestsStep | mercadolivre_scrapy/extract/spiders/mercadolivre.py:120-128 | one pagination step: continue exactly when under budget and a link exists |
| Transform.FromField | mercadolivre_scrapy/transform/main.py:31 | a missing feed field is a missing cell; a present one is its text |
| Transform.LoadFrame | mercadolivre_scrapy/transform/main.py:20-32 | one column per record key, each with one row per record; an empty feed gives a frame without columns |
| Transform.LoadFrameCells | mercadolivre_scrapy/transform/main.py:31 | row i of each column holds record i's field |
| Transform.ToNumeric | mercadolivre_scrapy/transform/main.py:53 | a converted cell is a number or missing, never text |
| Transform.ConvertPrice | mercadolivre_scrapy/transform/main.py:52-53 | a price becomes a number or missing |
| Transform.ConvertRating | mercadolivre_scrapy/transform/main.py:56 | a rating becomes a number or missing |
| Transform.CastInt64 | mercadolivre_scrapy/transform/main.py:57 | a missing value stays missing; a number is cast exactly when it is whole and within the 64-bit signed range, and then to that whole value; a fraction, an out-of-range value or text raises |
| Transform.NotNumeral | mercadolivre_scrapy/transform/main.py:53 | a character that can stand in no numeral makes the text unparsable |
| Transform.ConvertPriceNull | mercadolivre_scrapy/transform/main.py:52-53 | a missing price, stringified to "None", becomes missing |
| Transform.ConvertPriceDigits | mercadolivre_scrapy/transform/main.py:52-53 | a price written as digits is that whole number |
| Transform.ConvertPriceOneSeparator | mercadolivre_scrapy/transform/main.py:52-53 | `digits,digits` and `digits.digits` are read as the same decimal fraction |
| Transform.ConvertPriceTwoSeparators | mercadolivre_scrapy/transform/main.py:52-53 | two separators (',' or '.') anywhere make the price missing; there is no thousands handling |
| Transform.ConvertPriceThousands | mercadolivre_scrapy/transform/main.py:52-53 | "1.234,56" becomes missing |
| Transform.ConvertPriceFraction | mercadolivre_scrapy/transform/main.py:52-53 | "2.599" becomes 2.599 |
| Transform.ConvertPriceIdempotent | mercadolivre_scrapy/transform/main.py:52-53 | converting a converted price gives the same cell |
| Transform.ConvertRatingComma | mercadolivre_scrapy/transform/main.py:56 | a rating holding a ',' is missing |
| Transform.ConvertRatingNumeral | mercadolivre_scrapy/transform/main.py:56 | a rating written in canonical decimal form is that number |
| Transform.ConvertReviewAmountDigits | mercadolivre_scrapy/transform/main.py:57 | a digit count within the 64-bit range is that integer |
| Transform.ConvertReviewAmountZero | mercadolivre_scrapy/transform/main.py:57 | "0" is the integer 0, not missing |
| Transform.ConvertReviewAmountFraction | mercadolivre_scrapy/transform/main.py:57 | "2.5" makes the cast raise rather than round |
| Transform.ConvertReviewAmountUnparsable | mercadolivre_scrapy/transform/main.py:57 | unparsable text becomes missing |
| Transform.ConvertReviewAmountEmpty | mercadolivre_scrapy/transform/main.py:57 | the empty count that "()" leaves becomes missing |
| Transform.Fill | mercadolivre_scrapy/transform/main.py:45-46 | a broadcast scalar column holds the scalar on every row |
| Transform.ReviewAmounts | mercadolivre_scrapy/transform/main.py:57 | the column cast succeeds exactly when every cell can be cast, and then holds each cell's conversion |
| Transform.ConvertedNames | mercadolivre_scrapy/transform/main.py:50-57 | the converted columns are new_price, old_price, review_rating_number and review_amount, in that order, all distinct and none a metadata column |
| Transform.FirstFailing | mercadolivre_scrapy/transform/main.py:50-57 | the step at which preprocessing stops does not go through |
| Transform.BeforeFirstFailing | mercadolivre_scrapy/transform/main.py:50-57 | every step before it goes through |
| Transform.Applied | mercadolivre_scrapy/transform/main.py:50-57 | conversions keep the set of columns |
| Transform.AppliedSpec | mercadolivre_scrapy/transform/main.py:50-57 | after k steps the first k converted columns hold their converted cells and every other column is unchanged |
| Transform.PreprocessPasses | mercadolivre_scrapy/transform/main.py:34-59 | preprocessing returns exactly when the four columns exist and every review count can be cast |
| Transform.PreprocessKeyError | mercadolivre_scrapy/transform/main.py:51-57 | a missing column raises a KeyError naming the first missing converted column |
| Transform.PreprocessCastError | mercadolivre_scrapy/transform/main.py:57 | with all columns present, the only error is the review-count cast |
| Transform.PreprocessedColumns | mercadolivre_scrapy/transform/main.py:50-57 | after a successful run each converted column is its original cells converted row by row, and every other column is untouched |
| Transform.Halt | mercadolivre_scrapy/transform/main.py:51-53 | a step that raises after the earlier ones went through ends the run |
| Transform.Advance | mercadolivre_scrapy/transform/main.py:51-53 | a step that goes through replaces just its own column |
| Transform.Untouched | mercadolivre_scrapy/transform/main.py:51-57 | a column is still original before its step |
| Transform.StampSpec | mercadolivre_scrapy/transform/main.py:45-46 | every row gets the same source URL and the same crawl-time text |
| Transform.StampKeeps | mercadolivre_scrapy/transform/main.py:45-46 | stamping adds the two metadata columns and leaves every other column unchanged |
| Transform.EmptyFeedRaises | mercadolivre_scrapy/transform/main.py:52 | an empty feed gives a frame without price columns, so preprocessing raises a KeyError on new_price |
| Transform.Frame.constructor | mercadolivre_scrapy/transform/main.py:31 | a frame holds its columns, all of the same height |
| Transform.Frame.SetColumn | mercadolivre_scrapy/transform/main.py:45-57 | assigning a column replaces or adds just that column |
| Transform.Frame.PreprocessData | mercadolivre_scrapy/transform/main.py:34-59 | the frame ends up stamped, with the conversion steps applied up to the first that raises; the outcome is `PreprocessOutcome` of the stamped columns |
| Transform.Frame.AddMetadata | mercadolivre_scrapy/transform/main.py:45-46 | the frame becomes the stamped frame |
| Transform.Frame.ConvertPrices | mercadolivre_scrapy/transform/main.py:50-53 | the price loop converts new_price then old_price, stopping with a KeyError at the first missing one |
| Transform.Frame.ConvertReviews | mercadolivre_scrapy/transform/main.py:55-57 | the rating, then the review count with its cast, are converted, or the run stops at the first that raises |
| Transform.StoreReplaces | mercadolivre_scrapy/transform/main.py:73 | after a write the named table holds exactly the written rows, and every other table is unchanged |
| Transform.StoreLastWriteWins | mercadolivre_scrapy/transform/main.py:73 | of two writes to the same table only the second remains, never a union |
| Transform.Database.constructor | mercadolivre_scrapy/transform/main.py:71 | the database holds the given tables |
| Transform.Database.SaveToDatabase | mercadolivre_scrapy/transform/main.py:61-73 | the store is updated with the frame written under the table name, with replace semantics |
| Transform.RunTransform | mercadolivre_scrapy/transform/main.py:75-91 | `main` saves the preprocessed frame as `mercadolivre` when preprocessing returns, and leaves the database unchanged when it raises |
| Transform.PreprocessAndSave | mercadolivre_scrapy/transform/main.py:88-91 | after loading, the table is saved only when preprocessing returns |
| Timestamps.FieldSpec | mercadolivre_scrapy/transform/main.py:46 | each date or time field is zero-padded to its width and reads back as its value |
| Timestamps.StampFields | mercadolivre_scrapy/transform/main.py:46 | the crawl-time text holds the year, month, day, hour, minute and second at their fixed positions |
| Timestamps.FormatTimestampShape | mercadolivre_scrapy/transform/main.py:46 | the crawl-time text is 19 characters of the form `YYYY-MM-DD HH:MM:SS` |
| Timestamps.ParseFormatTimestamp | mercadolivre_scrapy/transform/main.py:46 | the crawl-time text reads back as the time it was made from |
| Decimals.ParseSound | mercadolivre_scrapy/transform/main.py:53 | only an optional sign, digits and at most one '.' parse |
| Decimals.ParseDigits | mercadolivre_scrapy/transform/main.py:53 | a digit string parses to its whole number |
| Decimals.ParseWholeFraction | mercadolivre_scrapy/transform/main.py:53 | `digits.digits` parses to the decimal with that mantissa and scale |
| Decimals.ParseShow | mercadolivre_scrapy/transform/main.py:56 | parsing the canonical text of a decimal gives it back |
| Decimals.IntegralValue | mercadolivre_scrapy/transform/main.py:57 | a whole decimal's integer, scaled back up, is its mantissa |
| Dashboard.GroupShape | mercadolivre_scrapy/dashboard/app.py:128 | `_` grouping of n digits has n + (n-1)/3 characters: a leading group of one to three digits, then groups of three |
| Dashboard.GroupedAppend | mercadolivre_scrapy/dashboard/app.py:128 | a grouped text extended by a separator and three digits stays grouped |
| Dashboard.GroupRemove | mercadolivre_scrapy/dashboard/app.py:128 | dropping the separators from the grouped text gives the digits back |
| Dashboard.GroupReplace | mercadolivre_scrapy/dashboard/app.py:128 | replacing '_' by '.' regroups the same digits with '.' |
| Dashboard.CentsSpec | mercadolivre_scrapy/dashboard/app.py:128 | the decimals are exactly two digits denoting the cents |
| Dashboard.ReplacePoint | mercadolivre_scrapy/dashboard/app.py:128 | the first replacement turns only the decimal point into ',' |
| Dashboard.ReplaceUnderscore | mercadolivre_scrapy/dashboard/app.py:128 | the second replacement turns only the '_' separators into '.' |
| Dashboard.CurrencyParts | mercadolivre_scrapy/dashboard/app.py:128 | both replacements together, on a sign, a grouped integer part, a point and a fraction |
| Dashboard.FormatCurrencyShape | mercadolivre_scrapy/dashboard/app.py:116-128 | the text is "R$ ", '-' for a negative amount, the integer part grouped by '.', a ',' and two decimals |
| Dashboard.FormatCurrencyGroups | mercadolivre_scrapy/dashboard/app.py:128 | in that text the leading group has one to three digits, every later one three, and the decimals are two digits |
| Dashboard.CentDigitsValue | mercadolivre_scrapy/dashboard/app.py:128 | the digits of the text denote the amount in cents |
| Dashboard.FormatCurrencyDigits | mercadolivre_scrapy/dashboard/app.py:128 | removing "R$ ", the '.' separators and the ',' gives the sign and the digits of the amount in cents |
| Dashboard.CurrencyDigits | mercadolivre_scrapy/dashboard/app.py:128 | the same on the parts of the text |
| Dashboard.FormatCurrencyExample | mercadolivre_scrapy/dashboard/app.py:128 | 123456 cents is written "R$ 1.234,56" |
| Dashboard.Upper | mercadolivre_scrapy/dashboard/app.py:105 | upper-casing keeps letters letters, makes them upper case, and keeps everything else |
| Dashboard.Lower | mercadolivre_scrapy/dashboard/app.py:105 | lower-casing keeps letters letters, makes them lower case, and keeps everything else |
| Dashboard.CaseLast | mercadolivre_scrapy/dashboard/app.py:105 | of two case changes only the last one counts |
| Dashboard.TitleFromAt | mercadolivre_scrapy/dashboard/app.py:105 | each character is cased by whether the character before it is a letter |
| Dashboard.TitleAt | mercadolivre_scrapy/dashboard/app.py:105 | a letter after a letter is lower case, a letter at the start or after a non-letter upper case, and other characters are kept |
| Dashboard.TitleIdempotent | mercadolivre_scrapy/dashboard/app.py:105 | title-casing twice is title-casing once |
| Dashboard.TitleBrand | mercadolivre_scrapy/dashboard/app.py:105 | a null brand stays null, and a present one keeps its length |
| Dashboard.TitleBrandsAt | mercadolivre_scrapy/dashboard/app.py:105 | each row keeps its place and only its brand is title-cased |
| Dashboard.LoadData | mercadolivre_scrapy/dashboard/app.py:89-113 | a failed connection, the `sqlite3.Error` it catches, gives no rows; a failed query is raised on unchanged; a successful read gives one row per row read |
| Dashboard.LoadDataRows | mercadolivre_scrapy/dashboard/app.py:100-106 | loading changes only the brand of each row, which it title-cases, a null brand staying null |
| Dashboard.LoadDataIdempotent | mercadolivre_scrapy/dashboard/app.py:105 | loading already-loaded rows changes nothing |
| Dashboard.Where | mercadolivre_scrapy/dashboard/app.py:395-402 | a mask never adds rows |
| Dashboard.WhereCount | mercadolivre_scrapy/dashboard/app.py:395-402 | a mask keeps every passing row as often as it occurs, and no other row |
| Dashboard.WhereSubsequence | mercadolivre_scrapy/dashboard/app.py:395-402 | a mask keeps the rows in their order |
| Dashboard.WhereWhere | mercadolivre_scrapy/dashboard/app.py:395-402 | two successive masks are their conjunction |
| Dashboard.DisplayFilter | mercadolivre_scrapy/dashboard/app.py:393-402 | the filtered table is no longer than the table |
| Dashboard.FilterKeeps | mercadolivre_scrapy/dashboard/app.py:393-402 | a row is kept, as often as it occurs, exactly when its brand is selected or none is, its price is in range and its rating reaches the minimum |
| Dashboard.FilterSubsequence | mercadolivre_scrapy/dashboard/app.py:393-402 | the filtered rows are a subsequence of the table, in the same order |
| Dashboard.NullNeverPasses | mercadolivre_scrapy/dashboard/app.py:398-402 | a row with a null price or a null rating is never shown |
| Dashboard.EmptyBrandsNoRestriction | mercadolivre_scrapy/dashboard/app.py:395-396 | with no brand selected only the price and rating mask applies |
| Dashboard.FilterIdempotent | mercadolivre_scrapy/dashboard/app.py:393-402 | filtering twice with the same choices gives the same rows |
| Dashboard.FilterAllPass | mercadolivre_scrapy/dashboard/app.py:393-402 | a table whose rows all pass is unchanged by the filter |
| Dashboard.KeepAll | mercadolivre_scrapy/dashboard/app.py:395-402 | a mask every row passes keeps the table as it is |

## Left out

- The CSS selector engine, HTTP fetching and the URL resolution of `response.follow` are not modelled. A page is abstract product containers, which answer each selector with the text of its first match, plus an opaque next-page link. A request past the end of the given site receives no page.
- Scrapy's duplicate-request filter, retries and concurrency are not modelled: requests are served one at a time, in order.
- Spider.MercadolivreSpider.ParseWith and Spider.Crawl: the records and the follow request of a page come out as two separate results. The model does not state that Scrapy sees the request only after the page's last record.
- The JSON feed export and `pd.read_json` are reduced to a map from each field name to a nullable text cell. `read_json`'s dtype inference is not modelled: a field that reads as a number is taken as its text. Column order is not modelled.
- Transform.ToNumeric: `pd.to_numeric` is modelled on a simple grammar, an optional sign then `digits[.digits]`, into exact decimals. Exponents, surrounding whitespace, `inf` and `nan`, a leading '.', a trailing '.' such as "5." (pandas reads it as 5.0, the model as unparsable), and the float rounding of the result are not modelled. A number cell's text form (`astype(str)`) is its canonical decimal text, not Python's float repr.
- Transform.CastInt64: the model casts exactly. Exact-float subtleties of pandas' "safe cast" check are not modelled.
- `datetime.now()` is a parameter of `PreprocessData` and `RunTransform`.
- The SQLite connection, its errors and file paths are not modelled: the database is a map from table name to table, and `to_sql` with `if_exists="replace"` is a map update.
- Dashboard.FormatCurrencyShape: takes the amount in integer cents. The float value, its rounding to two places, and the fallback `except` branch (dashboard/app.py:129-130) are not modelled.
- Dashboard.Title: ASCII letters only. Python's Unicode case rules for `str.title` are not modelled.
- Dashboard.LoadData: what connecting and querying gave is a parameter, split into a connection error and a query error. `st.error` and closing the connection are not modelled. The row type has only the columns the filter and the brand normalisation read, plus `name`, kept as a display column.
- The sidebar widgets of `display_data_filters` are not modelled: the selected brands, the price range and the minimum rating are given as values. The `sorted(...)` of brand options, which fails on a null brand, and the default range taken from the column's minimum and maximum are not modelled either.
- All Streamlit and Plotly rendering, page CSS, `locale.setlocale`, the KPI cards, the charts and the mean and groupby aggregations of the dashboard are out of scope.
