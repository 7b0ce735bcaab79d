# Financial summary and invoice totals, in Dafny

This project models two small pieces of business arithmetic and proves their properties.

**Per-company financial summary** (`compute_summary`, module `DataAggregation`).
- Input rows are `(company, year, revenue, profit)` records, grouped by company.
- Groups are visited in ascending key order, as `groupby` does.
- Each group is ordered by year.
- A company whose largest revenue is below the threshold `min_revenue` is dropped as a whole.
- Every other company gets three metrics:
  - its mean profit over all of its rows;
  - the year-over-year revenue growth between its last two rows, or "N/A" when it has a single row;
  - the profit margin of its last row.
- The metrics are rounded to two decimals.
- The loop that builds the summary list is the method `ComputeSummary`. It is proved equal to the function `Summarize`, and the lemmas describe `Summarize` in terms of the input rows.

**Invoice totals** (`InvoiceCalculator`, module `Invoice`).
- The subtotal is the sum of quantity × unit price.
- The total tax is the sum of quantity × unit price × tax rate.
- The grand total is their sum.
- The tax-rate check lists the items whose rate, read as 0 when absent, lies outside [0, 1].
- The calculator keeps the item list it is built with and never changes it, so its methods are functions of that list.

Two modules support them:
- `Results` holds the `Option` and `Result` types.
- `Sums` holds the sum of a term over a sequence. It has two forms: `SumLeft`, the left-to-right running total that Python's `sum` keeps, and `SumOf`, a reference definition. Lemmas cover concatenation, reordering, pointwise addition, monotonicity and non-negativity.

Modelling decisions:
- **Numbers.** Python floats are modelled as `real`, so every sum and ratio is exact. Quantities and years are `int`.
- **Rounding.** `round(x, 2)` is `Round2`: the nearest multiple of 0.01, with a tie going to the even multiple.
- **Company order.** Company keys compare as Python strings: lexicographically by code point, with a proper prefix first (`Before`).
- **Division by zero.** The code divides without checking. The values read from a row with `iloc` are numpy floats, and numpy division by zero does not raise. It gives an infinity signed like the numerator, or NaN for 0 / 0, and the loop goes on. The type `Ratio` models this: `Finite(v)`, `PositiveInfinity`, `NegativeInfinity` or `NotANumber`. `round` leaves an infinity or NaN as it is (`RoundRatio`). So a zero latest revenue gives a non-finite margin, and a zero second-to-last revenue gives a non-finite growth. Other companies are not affected.
- **Missing tax rate.** `total_tax` indexes `tax_rate` directly, so an item without a rate makes it, and `grand_total`, fail with `KeyError`. The validity check reads a missing rate as 0.

## Model

| member | source | states |
|---|---|---|
| DataAggregation.ComputeSummary | task1/data_aggregation.py:49-85 | The loop over the groups, which skips a group or appends its summary, returns exactly `Summarize(records, minRevenue)`. |
| DataAggregation.SummarizeCompanies | task1/data_aggregation.py:59-64 | For every input, the output lists companies in strictly ascending order. A company is listed exactly when at least one of its rows has revenue ≥ `min_revenue`, so whole companies are kept or dropped, never single rows. A zero revenue in one company removes no other company. |
| DataAggregation.NoCompanyDropped | task1/data_aggregation.py:59-64 | When every company has a row reaching the threshold (as with the default 0 and non-negative revenues), the output has one entry per company and lists every company of the input. |
| DataAggregation.CompanySummary | task1/data_aggregation.py:60-83 | Each output entry holds the metrics of its own company's rows. These are: the rounded mean profit over all of them, including rows below the threshold; "N/A" growth exactly when the company has one row; otherwise the rounded growth from a second-latest row to a latest row by year; and the rounded margin of a latest row. A zero denominator gives an infinity or NaN there. |
| DataAggregation.EmittedSummary | task1/data_aggregation.py:60-83 | The same metrics for one group, whatever order the year sort gives rows of equal year. |
| DataAggregation.TwoCompaniesExample | task1/data_aggregation.py:49-85 | Rows A 2022 (100, 10), A 2023 (150, 20) and B 2022 (50, 5) with threshold 0 give A: 15.0, 50.0 %, 13.33 % and B: 5.0, "N/A", 10.0 %. |
| DataAggregation.ZeroRevenueExample | task1/data_aggregation.py:49-85 | Rows A 2022 (revenue 0, profit 5) and B 2022 (50, 5) with threshold 0 give A: 5.0, "N/A", +infinity and B: 5.0, "N/A", 10.0 %. The zero revenue does not stop the loop. |
| DataAggregation.GroupStep | task1/data_aggregation.py:60-83 | One loop iteration skips the group exactly when every revenue is below the threshold. Otherwise it emits the summary of the year-sorted group under the group's own key. |
| DataAggregation.LoopBodyBehaves | task1/data_aggregation.py:60-83 | The loop body, as a function value, applies to every non-empty group. It skips exactly when no row reaches the threshold, and emits the year-sorted group's summary. The loop lemmas assume these two facts. |
| DataAggregation.GroupSummary | task1/data_aggregation.py:66-83 | A year-sorted group's summary carries the group's key. Its growth is "N/A" exactly for one row. Its margin is finite exactly when the latest revenue is non-zero. With two or more rows, its growth is finite exactly when the second-to-last revenue is non-zero. |
| DataAggregation.OverZero | task1/data_aggregation.py:71-76 | A number over zero is never finite. It is +infinity exactly for a positive numerator, −infinity exactly for a negative one, and NaN exactly for zero. |
| DataAggregation.GrowthPercent | task1/data_aggregation.py:71 | The result is finite exactly when the previous revenue is non-zero, and then r · prev = (latest − prev) · 100. With a zero previous revenue it is the numpy result of `latest / 0`. |
| DataAggregation.MarginPercent | task1/data_aggregation.py:76 | The result is finite exactly when the revenue is non-zero, and then r · revenue = profit · 100. With a zero revenue it is the numpy result of `profit / 0`. |
| DataAggregation.RoundRatio | task1/data_aggregation.py:80-82 | Rounding keeps a ratio finite exactly when it was finite, moves a finite value by at most 0.005, and leaves an infinity or NaN unchanged. |
| DataAggregation.Round2 | task1/data_aggregation.py:80-82 | The result is a whole number of hundredths within 0.005 of the input. On an exact tie between two hundredths it is the even one. |
| DataAggregation.GroupBy | task1/data_aggregation.py:59 | One non-empty group per company of the input, in strictly ascending key order. Each group holds exactly that company's rows. |
| DataAggregation.Companies | task1/data_aggregation.py:59 | The distinct company keys of the input, strictly ascending. |
| DataAggregation.InsertCompany | task1/data_aggregation.py:59 | Adding a key to an ascending list of distinct keys keeps it ascending and adds exactly that key. |
| DataAggregation.Rows | task1/data_aggregation.py:59 | A row is in a company's group exactly when it is an input row of that company. |
| DataAggregation.RowsCount | task1/data_aggregation.py:59 | A company's group holds each of that company's rows as many times as the input does, and no other row. |
| DataAggregation.RowsConcat | task1/data_aggregation.py:59 | A group keeps the input order of its rows: the rows of a concatenation are the rows of the first part, then those of the second. |
| DataAggregation.BeforeIrreflexive | task1/data_aggregation.py:59 | No key sorts before itself. |
| DataAggregation.BeforeTransitive | task1/data_aggregation.py:59 | Key order is transitive. |
| DataAggregation.BeforeTotal | task1/data_aggregation.py:59 | Of two different keys, one sorts before the other. |
| DataAggregation.SortByYear | task1/data_aggregation.py:60 | The sorted group is ordered by year and is a permutation of the group. |
| DataAggregation.InsertByYear | task1/data_aggregation.py:60 | Inserting a row into a year-ordered list keeps it ordered and adds exactly that row. |
| DataAggregation.SortByYearRows | task1/data_aggregation.py:60 | Sorting keeps the length and the set of rows. |
| DataAggregation.MaxRevenue | task1/data_aggregation.py:63 | The result is at least every revenue of the group and is the revenue of one of its rows. |
| DataAggregation.LatestAndPrevious | task1/data_aggregation.py:68-75 | After the sort, the last row has the largest year of the group. The second-to-last is another row, with the largest year among the rest. |
| DataAggregation.MeanOverAllRows | task1/data_aggregation.py:60-66 | The profit total is the same before and after the sort, so the mean does not depend on it. |
| DataAggregation.CollectSound | task1/data_aggregation.py:57-85 | Every output entry was emitted by the body for some group. |
| DataAggregation.CollectComplete | task1/data_aggregation.py:57-85 | Every entry the body emits is in the output. |
| DataAggregation.CollectAscending | task1/data_aggregation.py:57-85 | When the body emits each group's own key and the keys ascend, the output keys ascend. |
| DataAggregation.CollectKeepAll | task1/data_aggregation.py:57-85 | When the body emits for every group, the output has one entry per group, in group order. |
| DataAggregation.CollectListed | task1/data_aggregation.py:57-85 | The loop lists exactly the keys of the groups it did not skip. |
| DataAggregation.KeptGroupIff | task1/data_aggregation.py:59-64 | A company's group is not skipped exactly when one of its rows reaches the threshold. |
| Sums.SumLeftIsSumOf | task2/unit_testing_and_tdd_logic.py:10 | The left-to-right running total from a start value is the start value plus the reference sum. |
| Sums.SumOfPermutation | task2/unit_testing_and_tdd_logic.py:10 | The sum does not depend on the order of the elements. |
| Sums.SumOfConcat | task2/unit_testing_and_tdd_logic.py:10 | The sum over a concatenation is the sum of the two parts. |
| Invoice.Subtotal | task2/unit_testing_and_tdd_logic.py:8-10 | `subtotal` is the sum over the items of quantity × unit price, 0 for no items. |
| Invoice.TaxFromSum | task2/unit_testing_and_tdd_logic.py:12-14 | The running tax total fails with `KeyError("tax_rate")` exactly when some item has no rate. Otherwise it is the start value plus the sum of the line taxes. |
| Invoice.TotalTax | task2/unit_testing_and_tdd_logic.py:12-14 | `total_tax` fails with `KeyError("tax_rate")` exactly when some item has no rate. Otherwise it is the sum of quantity × unit price × rate, 0 for no items. |
| Invoice.GrandTotal | task2/unit_testing_and_tdd_logic.py:16-18 | `grand_total` fails exactly when `total_tax` does. Otherwise it is the sum over the items of quantity × unit price × (1 + rate). |
| Invoice.SubtotalAppend | task2/unit_testing_and_tdd_logic.py:10 | Appending an item adds exactly its quantity × unit price to the subtotal. |
| Invoice.TotalTaxAppend | task2/unit_testing_and_tdd_logic.py:14 | Appending an item with a rate adds exactly its tax to the total tax. Appending one without a rate makes it fail. |
| Invoice.MissingRatePermutation | task2/unit_testing_and_tdd_logic.py:14 | Reordering the items does not change whether some item lacks a rate. |
| Invoice.TotalsPermutation | task2/unit_testing_and_tdd_logic.py:8-18 | Reordering the items changes none of the three totals, nor whether they fail. |
| Invoice.TotalsBounds | task2/unit_testing_and_tdd_logic.py:8-18 | Assume non-negative quantities and prices and every rate in [0, 1]. Then the totals succeed, 0 ≤ total tax ≤ subtotal, and subtotal ≤ grand total ≤ 2 × subtotal. |
| Invoice.InvalidTaxRates | task2/unit_testing_and_tdd_logic.py:57-63 | The result holds exactly the items whose rate, read as 0 when absent, is below 0 or above 1. It is empty exactly when every item's rate is in range. |
| Invoice.InvalidTaxRatesConcat | task2/unit_testing_and_tdd_logic.py:58-61 | Checking two parts of a list in turn lists the invalid items of each, in input order. |
| Invoice.LaptopMouseInvoice | task2/unit_testing_and_tdd_logic.py:31-63 | Laptop (2 × 3000 at 0.19) and Mouse (5 × 100 at 0.19) give subtotal 6500, tax 1235, grand total 7735 and no invalid rate. |
| Invoice.SmallAmountsInvoice | task2/unit_testing_and_tdd_logic.py:65-80 | Items 1 × 0.1 at 0.07 and 2 × 0.2 at 0.05 give subtotal 0.5, tax 0.027 and grand total 0.527, exactly over the reals. |
| Invoice.InvalidRateReported | task2/unit_testing_and_tdd_logic.py:57-63 | A list holding an item with rate 1.5, an item with no rate and a valid item reports exactly the 1.5 item. |

## Left out

- Round2: this is exact decimal rounding of a real, half to even. Python's `round` on a binary float rounds the stored binary value, so some decimal ties (such as 2.675) round differently.
- SortByYear: rows of equal year come out in one fixed order: their input order, as a stable sort gives. pandas' default sort makes no stability promise. So when two rows share the latest or the second-latest year, the exact values that GroupSummary, GroupStep, Summarize and ComputeSummary give follow this one order, where pandas may pick either row. CompanySummary and EmittedSummary do not depend on it: they name "a latest row" and "a second-latest row" by year only.
- Missing values: NaN in any column (pandas skips NaN in `max` and `mean`, and `groupby` drops rows with a NaN key) are not modelled. A row is always a complete record.
- Missing keys: an item without `quantity` or `unit_price` would make `subtotal` fail with `KeyError`. The model's items always carry both. Only the tax rate may be absent.
- Floating-point error: sums are exact over the reals. The exact-equality test of a float total against 0.027 at task2/unit_testing_and_tdd_logic.py:77 depends on binary rounding and is not reproduced bit for bit. The model proves the exact real value.
- `load_data` (task1/data_aggregation.py:6-46) is not modelled: CSV reading, interactive repair of bad rows, printing.
- `main` (task1/data_aggregation.py:88-119) is not modelled: command-line parsing, JSON output, table printing.
- `export_to_json` (task2/unit_testing_and_tdd_logic.py:20-29) is not modelled: a file write.
- The module-level script (task2/unit_testing_and_tdd_logic.py:31-40) is not modelled: it only prints. Its item list is the fixture of `LaptopMouseInvoice`. The totals in its comments (6200, 1180, 7380) disagree with the arithmetic; the tests' 6500, 1235 and 7735 are what the model proves.
- task5/pdf_exel.py is not part of this model: spreadsheet and PDF rendering, timestamps and file checks, with no logic of its own.
