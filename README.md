# ScanEQ: validators, input gate and strategy signals

ScanEQ is a small desktop tool: the user types a ticker symbol and two dates, the
"Download Data" button fetches daily prices and stores them in `<TICKER>_data.csv`,
and two strategy buttons replay that file through a backtesting engine, either a
moving-average crossover (MACS) or a Bollinger-band rule. Almost everything is done by
the GUI toolkit, the market-data client and the backtesting library. This project
models the program's own logic and proves what it promises:

- `Validation` models `validate_ticker` the way Python's regular-expression matcher
  runs `^[a-zA-Z0-9.-]{1,10}$`: a greedy repetition, backtracking, and a `$` that
  also matches just before one final newline. It models `validate_date` the way CPython's
  `datetime.strptime(s, "%Y-%m-%d")` works: the format's regular expression with its
  field alternatives, then the "unconverted data remains" check, then the calendar
  check of `datetime(year, month, day)`. Lemmas then say exactly which strings each
  validator accepts.
- `App` models `download_data` and `plot_strategy` as the list of effects each button
  causes (dialogs, fetch, CSV write and read, backtest), over a set of file names.
  The helper `ErrorDialogs` picks the error dialogs out of such a list, so that "at
  most one error dialog" can be stated.
- `Strategy`, `Macs` and `Bollinger` model the per-bar `next` decisions as pure
  functions. A `Run` method calls the decision once per bar, from the first bar on,
  and its result is tied to a specification of the whole run. The Bollinger rolling
  mean and bands are functions of the close series. The standard deviation of a
  window is a function parameter, applied to the same 20-bar window as the mean.

Assumptions about foreign code, stated as inputs:
- Whether the market-data fetch came back empty is the `fetchedEmpty` parameter.
- The files on disk are a `set<string>` of names.
- `crossover` from the backtesting library is a function parameter. So is the
  standard deviation of a window. The two SMA indicator series are inputs.
- The field spellings `strptime` accepts are those of CPython's `_strptime`:
  - `%Y` is four digits.
  - `%m` is `1[0-2]`, `0[1-9]` or `[1-9]`.
  - `%d` is `3[01]`, `[12]\d`, `0[1-9]`, `[1-9]` or a space followed by `[1-9]`.

  So `2024-1-5` and `2024-01- 5` are accepted, and the year `0000` is rejected by
  `datetime`'s year range. These come from the Python library, not from ScanEQ.py.

The form labels and the date error message ask for `YYYY-MM-DD` (ScanEQ.py:62,
78, 83), and the ticker pattern reads as 1 to 10 characters. The code accepts more: one-digit
months and days, a space-padded day, and a ticker followed by a newline.
`ValidateDateAccepts` and `ValidateTickerAccepts` state these cases exactly.

The Bollinger bands are computed once, in `init`, over the whole series rather than
recomputed bar by bar. `BandsCausal` and `PositionCausal` prove that this looks at no
future bar. The mean and the standard deviation at bar i are both computed from the
window of bars i-19..i, so the value used at bar i depends only on bars 0..i. The
snapshot is therefore not a look-ahead error. This holds for any deviation function
of the window, not just pandas' sample standard deviation.

## Model

| member | source | states |
|---|---|---|
| Validation.GreedyRun | ScanEQ.py:51 | the greedy phase of `{1,10}` consumes only class characters, at most 10, and stops before the first non-class character |
| Validation.AnchorOnlyAtRunEnd | ScanEQ.py:51 | backtracking the repetition never finds a shorter match: `$` can hold only at the end of the greedy run |
| Validation.ValidateTickerAccepts | ScanEQ.py:50-55 | `validate_ticker` accepts exactly 1 to 10 characters from `[A-Za-z0-9.-]`, optionally followed by one `'\n'` |
| Validation.TickerAcceptedCases | ScanEQ.py:51 | "AAPL\n", "BRK.B" and "BF-B" are accepted |
| Validation.TickerRejectedCases | ScanEQ.py:51 | "", eleven letters, "AAPL\n\n" and "AA PL" are rejected |
| Validation.DaysInMonth | ScanEQ.py:59 | month lengths lie in 28..31 and February has 29 days exactly in Gregorian leap years |
| Validation.MatchMonthDash | ScanEQ.py:59 | `%m` followed by '-' yields a month in 1..12 and consumes text |
| Validation.MatchDay | ScanEQ.py:59 | `%d` yields a day in 1..31 and consumes text |
| Validation.YearValue | ScanEQ.py:59 | `%Y` reads four digits as a year below 10000 |
| Validation.ParseDate | ScanEQ.py:57-63 | whatever `strptime` accepts is a date `datetime` can construct |
| Validation.ParseDateText | ScanEQ.py:57-63 | every spelling of a year-month-day in the format's field ranges is read back as that date if it exists on the Gregorian calendar with a year of at least 1, and rejected otherwise |
| Validation.ParseDateSound | ScanEQ.py:57-63 | every accepted string is such a spelling of the calendar date it yields, with nothing left over |
| Validation.ValidateDateAccepts | ScanEQ.py:57-63 | `validate_date` holds exactly of the spellings of calendar dates: four-digit year, month "MM" or "M", day "DD", "D" or " D" |
| Validation.IsoRoundTrip | ScanEQ.py:59 | the canonical YYYY-MM-DD text of a calendar date is read back as that date |
| Validation.CalendarEdgeCases | ScanEQ.py:57-63 | February 29 passes exactly in leap years; the 31st of a 30-day month and the year 0000 never pass |
| App.DataFileNameInjective | ScanEQ.py:107 | two tickers give the same data file name only when they are equal |
| App.DownloadData | ScanEQ.py:97-110 | a fetch happens, with the given inputs, exactly when ticker, start and end all validate; the checks stop at the first failure and show only that failure's dialog; at most one error dialog; with valid inputs the fetch comes first, an empty fetch shows only the download-failed dialog and a non-empty one the success dialog; the data file for the ticker is written exactly when the inputs are valid and the fetch was not empty; the file set changes only by that file |
| App.PlotStrategy | ScanEQ.py:112-125 | an invalid ticker shows only its dialog; a valid one is first read from the ticker's data file, the only file read, and a missing file shows only the no-data-file dialog naming the ticker; the backtest, with cash 10000 and commission 0.002, runs exactly when the ticker is valid and its file exists; nothing is fetched or written; at most one error dialog |
| App.DownloadThenPlot | ScanEQ.py:102-118 | after a successful download a plot of the same ticker reads the written file and runs the backtest on it |
| App.WriteAndReadAgree | ScanEQ.py:107-118 | the path written by a download and the path read by a plot are equal exactly when the tickers are equal |
| Strategy.Apply | ScanEQ.py:38-47 | buy opens a long, sell a short, close goes flat, no order keeps the position |
| Macs.Decide | ScanEQ.py:19-23 | one order per bar: buy exactly when the short average crosses over the long one, sell exactly when it does not and the long crosses over the short, otherwise nothing; never a close |
| Macs.Run | ScanEQ.py:19-23 | over a run, the order at each bar is buy exactly when `crossover(sma1, sma2)` holds on the history up to that bar, and sell exactly when it fails and `crossover(sma2, sma1)` holds |
| Bollinger.RollingMean | ScanEQ.py:28-30 | the rolling mean is defined exactly from bar index n-1 = 19 on |
| Bollinger.BandsAt | ScanEQ.py:30-35 | the bands are defined exactly from bar index 19 on |
| Bollinger.SumBounds | ScanEQ.py:30 | the sum of a window whose values lie in [lo, hi] lies in [len·lo, len·hi] |
| Bollinger.MeanWithinWindow | ScanEQ.py:30 | the rolling mean lies between the least and the greatest close of the last 20 bars |
| Bollinger.BandsOrdered | ScanEQ.py:31-33 | when the window's standard deviation is ≥ 0, lower ≤ mean ≤ upper, each band 2·stddev from the mean |
| Bollinger.BandsCausal | ScanEQ.py:30-35 | the band used at bar i, mean and deviation both, is the same whether computed over the whole series or over any prefix containing bar i |
| Bollinger.Decide | ScanEQ.py:37-47 | no action on an undefined band; flat: sell exactly when close > upper, buy exactly when close < lower (given lower ≤ upper); long: close exactly when close > upper; short: close exactly when close < lower; in a position never opens another |
| Bollinger.Run | ScanEQ.py:37-47 | the loop's orders are the per-bar decisions of the run and its final position is the run's position after the last bar |
| Bollinger.WarmUpIsFlat | ScanEQ.py:30-47 | no order is placed before bar 19 and the run is flat at bar 19 |
| Bollinger.ChangesOnlyThroughFlat | ScanEQ.py:38-47 | from one bar to the next the position changes only into or out of flat, never long to short |
| Bollinger.EntryAtBreakout | ScanEQ.py:38-42 | when flat with defined bands: a close above the upper band opens a short, below the lower band a long, otherwise the run stays flat |
| Bollinger.ExitAtReversion | ScanEQ.py:43-47 | an open position is closed on the bar that meets its exit condition and the run is then flat |
| Bollinger.HeldUntilExit | ScanEQ.py:43-47 | an open position is kept on every bar up to the first bar meeting its exit condition |
| Bollinger.PositionCausal | ScanEQ.py:34-47 | the position at bar k is the same whether the bands are computed over the whole series or over the bars seen so far |

## Left out

- The tkinter window, its widgets and the `messagebox` dialogs are not modelled as UI. A dialog appears only as an effect value with its title and message text.
- `yf.download` is a network call and is not modelled. Only whether it returned an empty frame is kept, as an input.
- The CSV contents and the pandas `to_csv`/`read_csv` calls are file I/O in a foreign library. Only the file name and whether the file exists are kept. The row round trip through CSV is therefore not stated.
- The backtest run, cash and commission accounting, equity, `stats` and the chart belong to backtesting.py. Only the backtest call with its constants is kept.
- `crossover`, `SMA` and `self.I` are library code not shown here. `crossover` is a function parameter, and the 10- and 20-bar SMA series given to MACS are inputs. The window lengths 10 and 20 therefore appear only in this description.
- The rolling standard deviation (`rolling().std()`, a floating-point square root) is a function of the window, given as a parameter. Band ordering is proved under the hypothesis that its value is non-negative.
- The backtesting engine's bar loop is not modelled. backtesting.py starts calling `next` only after the indicators' warm-up, at bar 20 for the Bollinger bands. Both `Run` methods start at bar 0. So the model can place a Bollinger order at bar 19 (`EntryAtBreakout` with k = 19), which the program cannot. MACS can likewise order on a warm-up bar whenever the abstract `crossover` holds there.
- The file system is a set of exact names. On a case-insensitive file system `aapl` and `AAPL` share one file, which `WriteAndReadAgree` does not allow for. Read errors other than a missing file propagate uncaught from `read_csv` (a directory of that name, missing permission, a CSV without a `Date` column); they are not modelled.
- Prices are exact reals. Floating-point rounding and NaN are not modelled; an undefined indicator value is `None`, and comparisons with it are false.
- Strategy.Apply: assumes every order is filled before the next bar. Whether a fill fails for lack of cash is decided by the library. So is what a buy or sell does to an open position of the other side, which is why MACS's orders are not turned into positions.
- Validation.ParseDate: `\d` in Python matches every Unicode decimal digit, but the model reads only the ASCII digits 0-9.
- The `strptime` field spellings are CPython's `_strptime` tables, as an assumption about that library.
