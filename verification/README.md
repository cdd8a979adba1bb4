# Smart Energy Consumption Dashboard: a verified model of its logic

The dashboard is a single Streamlit script (`app.py`). It loads a table of
household energy records, lets the user narrow it to one region, shows the
total and mean monthly consumption, and lists rule-based recommendations,
which can be downloaded as `recommendations.txt`. Almost all of the script
draws widgets and charts. This project models the four pieces of logic in
it and proves what they guarantee:

- **Region selector and filter** (`region_filter.dfy`, module `RegionFilter`).
  The options are `"All"` followed by the distinct regions in increasing
  order. Python's `<` on `str` is modelled as `Less`: lexicographic by code
  point, with a proper prefix first. Choosing `"All"` keeps the table as it
  is. Any other choice keeps exactly the rows of that region, in table order.
- **Metrics** (`metrics.dfy`, module `Metrics`). `Total` is the sum of the
  consumption column. `Mean` is that sum divided by the row count. It is
  `None` on an empty selection, where pandas yields NaN.
- **Recommendations** (`recommendations.dfy`, module `Recommendations`). Rows
  are checked in table order and the first matching rule wins. Consumption
  above 250 kWh gives a high-usage warning. Otherwise `EV_Charging == 1`
  gives an EV-meter note. Otherwise the row gets nothing. Each message starts
  with `Household ID <id> - `. The pure function `Advise` is the
  specification. The method `BuildRecommendations` is the script's loop,
  which appends to a list, and it is proved equal to `Messages(Advise(rows))`.
- **Download** (`download.dfy`, module `Download`). The payload is the
  messages joined with `"\n"`. It is offered only when there is at least one
  message.
- `dashboard.dfy` (module `Dashboard`) runs one pass of the script on a
  table and a selector value. `households.dfy` holds the row type and facts
  about subsequences.

Two behaviours of the code are worth knowing:

- Any `EV_Charging` value other than 1 produces no EV message. The data
  only holds 0 or 1, so this is the same as "0 gives nothing".
- Splitting the payload on `"\n"` gives back the message list only under two
  conditions. The list must be non-empty, because `"".split("\n")` is
  `[""]`. No message may contain a newline, which holds exactly when no
  advised row's Household_ID contains one (a row that gets no message may
  hold any id). `SplitJoinExactly` proves both directions, and
  the script's `if recommendations:` guard already covers the empty case.

A region whose name is literally `"All"` is listed twice among the options,
and choosing it keeps every row. `Filter` models that as written.

## Model

| member | source | states |
|---|---|---|
| `RegionFilter.RegionOptions` | app.py:44 | the options are "All", then strictly increasing regions; a string is among them exactly when some row has that Region |
| `RegionFilter.SortedDistinct` | app.py:44 | the result is strictly increasing and holds exactly the values of its input (sorted, duplicates removed) |
| `RegionFilter.IncreasingIsUnique` | app.py:44 | two strictly increasing lists with the same elements are equal, so the option list does not depend on how unique/sort are implemented |
| `RegionFilter.Insert` | app.py:44 | inserting into a strictly increasing list keeps it strictly increasing and adds exactly the new value |
| `RegionFilter.Less` | app.py:44 | the order `sorted` uses on Region strings; a proper prefix comes before the longer string |
| `RegionFilter.Regions` | app.py:44 | the Region column: one entry per row, row i's Region at position i |
| `RegionFilter.LessTransitive` | app.py:44 | the string order used for sorting is transitive |
| `RegionFilter.LessTotal` | app.py:44 | any two different strings are ordered one way or the other |
| `RegionFilter.LessIrreflexive` | app.py:44 | no string is below itself |
| `RegionFilter.Select` | app.py:46 | the mask keeps a subsequence of the rows, each row of the region as often as in the table and no row of another region |
| `RegionFilter.Filter` | app.py:45-46 | "All" leaves the rows unchanged; any other choice keeps exactly the rows of that region, order preserved |
| `RegionFilter.FilterMembership` | app.py:45-46 | a row survives the filter exactly when it is in the table and the choice is "All" or its region |
| `RegionFilter.OptionSelectsSomething` | app.py:44-46 | every offered option keeps at least one row of a non-empty table, so the mean is defined whenever the table is non-empty |
| `Metrics.Total` | app.py:54 | the column sum: 0 for no rows, a single row's consumption for one row |
| `Metrics.TotalAppend` | app.py:54 | the total of two tables stacked together is the sum of their totals; with `Total`'s contract this fixes it as the column sum |
| `Metrics.Others` | app.py:54 | the rows outside a region: a subsequence holding every row of other regions as often as the table does and none of the region |
| `Metrics.TotalOfSubsequence` | app.py:54 | with non-negative consumption, dropping rows never increases the total |
| `Metrics.FilteredTotalBounded` | app.py:45-54 | the total over the selected region is at most the total over the whole table |
| `Metrics.TotalSplitsByRegion` | app.py:54 | the table's total is the region's total plus the total of the other rows |
| `Metrics.Mean` | app.py:53 | the mean exists exactly when there are rows, and mean times row count equals the total |
| `Metrics.MeanWithinRange` | app.py:53 | the mean lies between any lower and upper bound of the consumption values |
| `Metrics.TotalBounds` | app.py:54 | the total lies between count times the lower bound and count times the upper bound |
| `Recommendations.Classify` | app.py:81-88 | a row gets advice exactly when its consumption exceeds 250 or it charges an EV; the advice carries the row's id, and it is high-usage exactly when consumption exceeds 250 |
| `Recommendations.RowAdvice` | app.py:80-88 | a row contributes at most one recommendation |
| `Recommendations.Advise` | app.py:78-88 | there are never more recommendations than rows |
| `Recommendations.Message` | app.py:82-86 | every message begins with "Household ID ", then the household's id |
| `Recommendations.MessageRoundTrip` | app.py:82-86 | a message can be read back into the household id and the kind of advice it was made from, whatever the id holds |
| `Recommendations.EvMeterTextIsNotHighUsageText` | app.py:82-86 | an EV-meter message never ends in the high-usage text |
| `Recommendations.MessageInjective` | app.py:82-86 | two different pieces of advice never give the same message |
| `Recommendations.Messages` | app.py:78-88 | one message per piece of advice, none added or dropped |
| `Recommendations.AdviseAppend` | app.py:78-88 | the recommendations for two tables in a row are those of the first followed by those of the second |
| `Recommendations.AdviseAtRow` | app.py:78-88 | row i contributes exactly its own advice, after the rows before it and before the rows after it |
| `Recommendations.AdviseComplete` | app.py:80-88 | every row the rule fires on has its advice in the list |
| `Recommendations.AdviseSound` | app.py:80-88 | every recommendation in the list is the rule's advice for some row |
| `Recommendations.AdviseEmptyIff` | app.py:78-91 | the list is empty exactly when the rule fires on no row |
| `Recommendations.AdviseKeepsOrder` | app.py:78-88 | when rows i < j both fire, the advice of i comes before the advice of j |
| `Recommendations.AdviseOfSubsequence` | app.py:78-88 | the recommendations for a subsequence of rows are a subsequence of those for all rows |
| `Recommendations.FilteredAdviceIsSubsequence` | app.py:45-88 | the recommendations for a region are a subsequence of those for the whole table |
| `Recommendations.MessagesStep` | app.py:80-88 | one loop step adds the current row's message, if any, to the end of the list |
| `Recommendations.BuildRecommendations` | app.py:78-88 | the loop that appends messages returns exactly the messages of `Advise` for the rows, in order |
| `Download.Join` | app.py:94 | the joined text starts with the first line and ends with the last |
| `Download.Split` | app.py:94 | splitting always yields at least one piece |
| `Download.SplitLength` | app.py:94 | splitting yields one piece more than there are newlines |
| `Download.SplitPiecesAreLines` | app.py:94 | no piece of a split holds a newline |
| `Download.SplitJoin` | app.py:94 | splitting the joined lines gives them back when there is at least one line and none holds a newline |
| `Download.SplitJoinExactly` | app.py:94 | for a non-empty list, the round trip holds exactly when no line holds a newline |
| `Download.JoinNewlines` | app.py:94 | the joined text holds exactly one newline per gap between lines plus the lines' own newlines |
| `Download.LineNewlinesAtLeast` | app.py:94 | the lines together hold at least as many newlines as any one of them |
| `Download.SplitLine` | app.py:94 | a text without newlines splits into itself |
| `Download.SplitFirstLine` | app.py:94 | a newline-free first line is split off as the first piece |
| `Download.NewlineCount` | app.py:94 | a text has no newline exactly when its count of newlines is zero |
| `Download.NewlineCountAppend` | app.py:94 | newlines in a concatenation add up |
| `Download.Payload` | app.py:91-97 | a payload is offered exactly when there is at least one recommendation |
| `Download.PayloadRoundTrip` | app.py:91-97 | the downloaded file, split into lines, gives back the recommendation list when its messages hold no newline |
| `Download.MessageNewlines` | app.py:82-86 | a message holds a newline exactly when its household id does |
| `Download.MessagesHoldNoNewline` | app.py:78-88 | when no household id holds a newline, no recommendation does |
| `Download.HighUsageTextHoldsNoNewline` | app.py:82 | the fixed high-usage text holds no newline |
| `Download.EvMeterTextHoldsNoNewline` | app.py:86 | the fixed EV-meter text holds no newline |
| `Dashboard.Refresh` | app.py:44-97 | one run: the selection is the filtered table, the total and mean are its metrics, the mean exists exactly when the table is non-empty, the recommendations are `Messages(Advise(selection))`, and there are no more of them than rows. The download is the newline-joined recommendations; it is offered exactly when some selected row fires a rule, and then it splits back into the recommendations when no id holds a newline |
| `Dashboard.ThreeHouseholds` | app.py:78-88 | rows with 300 kWh, 100 kWh plus an EV, and 50 kWh give a warning for the first and an EV note for the second; the total is 450 and the mean 150 |
| `Households.SubsequenceLength` | app.py:46 | a filtered selection is never longer than the table |

## Left out

- Page configuration, CSS, titles, subheaders, `st.write(df.head())`, the metric widgets, `st.warning`/`st.info` rendering and the footer (app.py:10-33, 40, 43, 49-50, 56-58, 77, 84, 88, 99-101). These are presentation calls with no logic of their own.
- Reading `energy_data.csv` (app.py:36). This is file input. The table is a parameter, a `seq<Record>`, and a missing file or column is not modelled.
- Both charts and the appliance selector (app.py:60-74). They are plotting calls with no logic.
- The columns Monthly_Income_INR, Appliance_AC, Appliance_Fan, Appliance_Light, Fridge and Washing_Machine. No modelled logic reads them, so `Record` omits them.
- Metrics.Mean: exact rational division instead of an IEEE-754 double, with no `:.2f` or `:.0f` formatting. NaN on an empty selection is modelled as `None`.
- Recommendations.Classify: consumption and EV_Charging are integers. A fractional kWh value compared against 250 is not modelled.
- Household_ID is modelled as the text that the f-string renders. How pandas formats an integer or float id is not modelled.
- Missing values (NaN) are not modelled in any column. In Region, `sorted` would reject them next to strings. In Monthly_Energy_Consumption_kWh, pandas' `.sum()` and `.mean()` skip them, the mean dividing by the count of present values, and `NaN > 250` is false, so such a row falls through to the EV test. The model has no missing values, so `Total` and `Mean` use every row.
- Metrics.Total: an unbounded integer sum; the wrap-around of an int64 column's `.sum()` past 2^63 - 1 is not modelled.
- The download button's label, file name and MIME type (app.py:93, 95-96) are constants passed to the widget. Only the payload and the condition for showing the button are modelled.
