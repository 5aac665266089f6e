# Sales data analyzer: the clean → analyze core

This project models the middle of the sales-report pipeline of `analyzer.py`:
the cleaning of a loaded sales table (`clean_data`) and the metrics computed
from the cleaned table (`analyze_data`), and proves what each step promises.

A table is a sequence of rows. A raw row (`Table.RawRow`) holds a product
name, a price that may be missing, a date, a category and an order id; a
cleaned row (`Table.Row`) is the same record with its price present. Prices
are exact `real` numbers, dates an opaque `Table.Timestamp`.

- `Columns` — the fixed rename table (`product_name`/`item` → `product`,
  `value` → `price`, `order_date` → `date`, `price` kept) as a function on
  column names and on a header.
- `Cleaner` — the in-place steps of `clean_data`, in the source's order:
  drop rows with a null price (`DropNa`; the type coercion that follows is
  folded into it, since it gives the surviving rows their numeric type), lowercase the category (`LowerCategories`), drop rows
  whose order id was already seen keeping the first (`DropDuplicateIds` as
  the specification, `DropDuplicates` as a one-pass loop with a seen-set),
  and `CleanData`, which applies them one after the other.
- `Analyzer` — `TotalRevenue` (sum of prices), `AveragePrice` (mean),
  `BestSellingProduct` (`mode()[0]`), `SalesByCategory` (group-by sum,
  sorted descending) and `AnalyzeData`, which fails with `EmptyDataset` on an
  empty table, where `mode()[0]` raises.
- `Pipeline` — cleaning followed by analysis, and a worked three-row example.

Two behaviours of the code that are easy to misread, modelled as the code has them:

- Best-selling product on a tie: it is not the first product seen. The code
  takes `mode()[0]`, and pandas' `mode()` returns the modes in sorted order,
  so the least product name (code-point order) wins. In the
  three-row example (`Pipeline.DuplicateOrderScenario`) that is `Gadget`, not
  `Widget`.
- Category names in `sales_by_category` come out lowercased (`tools`, not
  `Tools`), because the cleaning lowercases them first.

## Model

| member | source | states |
|---|---|---|
| `Columns.Canonical` | analyzer.py:25-31 | `product_name`, `item` and `product` map to `product`; `value` and `price` to `price`; `order_date` and `date` to `date`; any other name is kept; no synonym is ever produced |
| `Columns.RenameColumns` | analyzer.py:25-31 | the header keeps its length and every label is replaced by its canonical name, position by position |
| `Columns.RenameNormalizes` | analyzer.py:25-31 | after renaming no synonym is left, `product`/`price`/`date` exist whenever one of their synonyms did, and renaming twice equals renaming once |
| `Cleaner.DropNa` | analyzer.py:34-37 | defining function of null filtering with the surviving prices typed; never longer than its input; its properties are `DropNaSubseq`, `DropNaKeepsPriced`, `DropNaOfClean` and `DropNaIds` |
| `Cleaner.DropNaSubseq` | analyzer.py:34 | the rows surviving `dropna(subset=['price'])` are an order-preserving subsequence of the input |
| `Cleaner.DropNaKeepsPriced` | analyzer.py:34-37 | every row with a price survives exactly as often as it occurs in the input, and no row without a price survives |
| `Cleaner.DropNaOfClean` | analyzer.py:34 | null filtering leaves a table whose prices are all present unchanged |
| `Cleaner.DropNaIds` | analyzer.py:34 | the order ids after null filtering are exactly the ids of the rows that have a price |
| `Cleaner.Lower` | analyzer.py:41 | a lowercased character is never upper case, an upper-case letter moves to its lower-case partner, any other character is kept |
| `Cleaner.LowerString` | analyzer.py:41 | lowercasing keeps the length, lowercases every character in place, yields a lowercase string and leaves a lowercase string unchanged |
| `Cleaner.LowerCategories` | analyzer.py:41 | the row count and order are kept; each row's category is lowercased and its product, price, date and order id are unchanged |
| `Cleaner.LowerCategoriesIdempotent` | analyzer.py:41 | all categories are lowercase afterwards; a table already lowercase is unchanged, so lowercasing twice equals lowercasing once |
| `Cleaner.DropDuplicateIds` | analyzer.py:44 | defining function of keep-first deduplication by order id; never longer than its input; its properties are `DropDuplicateIdsDistinct`, `DropDuplicateIdsSubseq`, `DropDuplicateIdsKeepsIds`, `DropDuplicateIdsKeepsFirst`, `DropDuplicateIdsOfDistinct` and `DropDuplicateIdsIdempotent` |
| `Cleaner.DropDuplicateIdsDistinct` | analyzer.py:44 | after `drop_duplicates(subset=['order_id'])` no two rows share an order id |
| `Cleaner.DropDuplicateIdsSubseq` | analyzer.py:44 | the deduplicated table is an order-preserving subsequence of its input |
| `Cleaner.DropDuplicateIdsKeepsIds` | analyzer.py:44 | every order id of the input is still present in the output |
| `Cleaner.DropDuplicateIdsKeepsFirst` | analyzer.py:44 | the row kept for each order id is the first row of the input with that id (`keep='first'`) |
| `Cleaner.DropDuplicateIdsOfDistinct` | analyzer.py:44 | a table whose order ids are already distinct is left unchanged |
| `Cleaner.DropDuplicateIdsIdempotent` | analyzer.py:44 | deduplicating twice equals deduplicating once |
| `Cleaner.DropDuplicates` | analyzer.py:44 | the pass with a seen-set computes the keep-first deduplication: distinct ids, a subsequence of the input, no id lost, first row of each id kept |
| `Cleaner.Clean` | analyzer.py:20-46 | defining function of the cleaning stage (null filtering, lowercasing, deduplication); never longer than the loaded table; its properties are `CleanedTableInvariants`, `PricedIdsSurvive` and `CleanIdempotent` |
| `Cleaner.CleanData` | analyzer.py:20-46 | applying the steps in order yields the cleaned table, whose order ids are distinct and whose categories are lowercase |
| `Cleaner.CleanedTableInvariants` | analyzer.py:20-46 | the cleaned table has pairwise distinct order ids and only lowercase categories |
| `Cleaner.PricedIdsSurvive` | analyzer.py:34-44 | since null filtering runs before deduplication, the ids that survive cleaning are exactly the ids of rows with a price: a null-price row never hides a later priced row with the same id |
| `Cleaner.CleanIdempotent` | analyzer.py:20-46 | cleaning an already cleaned table yields the identical table |
| `Analyzer.TotalRevenue` | analyzer.py:52 | defining function of `df['price'].sum()`; non-negative when every price is; its properties are `TotalRevenueConcat` and `TotalRevenuePermutation` |
| `Analyzer.TotalRevenueConcat` | analyzer.py:52 | the total of two tables put together is the sum of their totals |
| `Analyzer.TotalRevenuePermutation` | analyzer.py:52 | the total revenue does not depend on the order of the rows |
| `Analyzer.AveragePrice` | analyzer.py:53 | the mean times the row count equals the total revenue |
| `Analyzer.PickBest` | analyzer.py:56 | the chosen value is one of the candidates, no candidate is sold more often, and it is the least among the candidates sold equally often |
| `Analyzer.BestSellingProduct` | analyzer.py:56 | for a non-empty table: a product of the table whose count no product exceeds, and the least such product in string order |
| `Analyzer.Categories` | analyzer.py:59 | the grouping keys are exactly the table's categories, each once |
| `Analyzer.EntriesPartitionTotal` | analyzer.py:59 | the sums of distinct categories covering every row add up to the total revenue |
| `Analyzer.Insert` | analyzer.py:59 | inserting into a non-increasing list keeps it non-increasing and adds exactly that entry |
| `Analyzer.SortBySalesDescending` | analyzer.py:59 | the sorted entries are non-increasing by sum and a permutation of the input entries |
| `Analyzer.SumSalesPermutation` | analyzer.py:59 | reordering the entries does not change their sum |
| `Analyzer.PermutationDistinctKeys` | analyzer.py:59 | reordering entries with one entry per category keeps one entry per category |
| `Analyzer.GroupsFacts` | analyzer.py:59 | before sorting there is one group per category and the group sums add up to the total |
| `Analyzer.SalesByCategory` | analyzer.py:59 | one entry per distinct category, each holding the sum of that category's prices, the entries adding up to the total revenue, in non-increasing order of sum |
| `Analyzer.AnalyzeData` | analyzer.py:48-67 | fails exactly on an empty table; otherwise the total is the sum of prices, the mean is total over count, there is one category entry per category of the table, each holding that category's sum, the entries add up to the total in non-increasing order, and the best seller occurs in the table with a maximal count and is the least product among those sold equally often |
| `Pipeline.Run` | analyzer.py:97-101 | defining function of cleaning followed by analysis; fails exactly when cleaning leaves no row; its properties are `RunFailsIffNoPrice`, `NullRowsIgnored` and `DuplicateOrderScenario` |
| `Pipeline.RunFailsIffNoPrice` | analyzer.py:97-101 | cleaning then analysing fails exactly when no loaded row has a price |
| `Pipeline.NullRowsIgnored` | analyzer.py:34 | removing the null-price rows beforehand changes no metric |
| `Pipeline.DuplicateOrderCleaned` | analyzer.py:20-46 | on two rows with order id 1 and one with id 2, two rows remain, with lowercased categories |
| `Pipeline.DuplicateOrderScenario` | analyzer.py:48-67 | on that table the revenue is 15, the best seller is `Gadget` (least of a tie), and the categories are `tools` (10) then `electronics` (5) |

## Left out

- `load_data` (analyzer.py:4-18): listing the directory, matching `.csv`, CSV parsing and `pd.concat`. The model starts from the concatenated table and assumes concatenation keeps each file's row order.
- String parsing in `pd.to_numeric` and `pd.to_datetime` (analyzer.py:37-38): prices arrive already numeric and dates already as timestamps, so these two lines change nothing in the model and the parse errors they can raise are not modelled.
- `generate_report` (analyzer.py:69-80) and `main` (analyzer.py:82-108): formatting, printing, the fixed folder name and the catch-all `except`. They do no computation.
- IEEE floating point: prices are exact reals, so rounding in `sum` and `mean` and the NaN mean of an empty table are not modelled. An empty table fails as a whole, because `mode()[0]` raises there.
- Cleaner.Lower: lowercases only ASCII `A`-`Z` and the Latin-1 capitals U+00C0-U+00DE (not U+00D7), which is weaker than Python's full Unicode `str.lower()`.
- Cleaner.LowerString: inherits the character range of `Cleaner.Lower`, and a category is always a string (NaN passing through `.str.lower()` is not modelled).
- Columns.RenameColumns: models the rename on column labels only. The duplicate labels pandas makes when both `product_name` and `item` (or `price` and `value`) are present, and `KeyError`s for missing columns, are not modelled.
- Analyzer.SalesByCategory: a category is always a string here, so the `groupby` default of dropping rows whose category is missing is not modelled; in the source such a priced row counts in `total_revenue` but in no group, and the group sums then fall short of the total, which `SalesByCategory` and `AnalyzeData` do not capture.
- Cleaner.DropDuplicateIds: an order id is always an integer here, so pandas' treatment of every missing `order_id` as one and the same id by `drop_duplicates` is not modelled.
- Analyzer.SalesByCategory: the order among categories with equal sums is unspecified in the source (`sort_values` uses an unstable sort), so only non-increasing order is stated. The groups are formed in order of each category's last occurrence here, not in pandas' sorted key order, which the final sort makes irrelevant to what is stated.
