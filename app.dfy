/** The two actions of the MyApp window in ScanEQ.py, "Download Data" and the two
    strategy buttons, as the sequence of effects each one has: dialogs, the market-data
    fetch, the CSV write and read, the backtest.  The files on disk are a set of names;
    whether the fetch came back empty is decided outside the program and is an input. */
module App {

  import opened Validation

  datatype StrategyKind = MacsStrategy | BollingerStrategy

  /** `Backtest(df, strategy_class, cash=10000, commission=.002)`. */
  const StartingCash: int := 10000
  const CommissionRate: real := 0.002

  datatype Effect =
    | ErrorDialog(title: string, message: string)
    | InfoDialog(title: string, message: string)
    | Fetch(ticker: string, start: string, end: string)
    | WriteCsv(path: string)
    | ReadCsv(path: string)
    | RunBacktest(strategy: StrategyKind, path: string, cash: int, commission: real)
    | ShowPlot

  const InvalidTickerDialog: Effect := ErrorDialog("Invalid Ticker", "Ticker symbol is invalid.")
  const InvalidDateDialog: Effect := ErrorDialog("Invalid Date", "Date should be in YYYY-MM-DD format.")
  const DownloadFailedDialog: Effect := ErrorDialog("Error", "Failed to download data.")

  function DownloadedDialog(ticker: string): Effect {
    InfoDialog("Download", "Data for " + ticker + " downloaded successfully.")
  }

  function NoDataFileDialog(ticker: string): Effect {
    ErrorDialog("Error", "No data file found for ticker " + ticker + ". Please download data first.")
  }

  /** The file a ticker's data is stored in, f"{ticker}_data.csv". */
  function DataFileName(ticker: string): string {
    ticker + "_data.csv"
  }

  /** Distinct tickers never share a data file. */
  lemma DataFileNameInjective(a: string, b: string)
    ensures DataFileName(a) == DataFileName(b) ==> a == b
  {
    if DataFileName(a) == DataFileName(b) {
      assert |a| == |b|;
      assert a == DataFileName(a)[..|a|] && b == DataFileName(b)[..|b|];
    }
  }

  function ErrorDialogs(effects: seq<Effect>): (errors: seq<Effect>)
    ensures |errors| <= |effects|
    ensures forall e :: e in errors <==> e in effects && e.ErrorDialog?
  {
    if effects == [] then []
    else (if effects[0].ErrorDialog? then [effects[0]] else []) + ErrorDialogs(effects[1..])
  }

  /** The condition `download_data` checks before any I/O. */
  predicate InputsValid(ticker: string, start: string, end: string) {
    ValidateTicker(ticker) && ValidateDate(start) && ValidateDate(end)
  }

  datatype Outcome = Outcome(effects: seq<Effect>, files: set<string>)

  /** `MyApp.download_data` (ScanEQ.py:97-110).  The three validators run in order
      under a short-circuit `and`, each raising its own dialog when it fails; only
      when all pass is the data fetched, and only data that came back non-empty is
      written. */
  function DownloadData(ticker: string, start: string, end: string, files: set<string>, fetchedEmpty: bool)
    : (r: Outcome)
    ensures Fetch(ticker, start, end) in r.effects <==> InputsValid(ticker, start, end)
    ensures forall e :: e in r.effects && e.Fetch? ==> e == Fetch(ticker, start, end)
    ensures !InputsValid(ticker, start, end) ==>
      forall e :: e in r.effects ==> !e.Fetch? && !e.WriteCsv?
    ensures !ValidateTicker(ticker) ==> r.effects == [InvalidTickerDialog]
    ensures ValidateTicker(ticker) && !ValidateDate(start) ==> r.effects == [InvalidDateDialog]
    ensures ValidateTicker(ticker) && ValidateDate(start) && !ValidateDate(end) ==>
      r.effects == [InvalidDateDialog]
    ensures |ErrorDialogs(r.effects)| <= 1
    ensures InputsValid(ticker, start, end) ==>
      |r.effects| >= 1 && r.effects[0] == Fetch(ticker, start, end)
    ensures InputsValid(ticker, start, end) ==>
      ErrorDialogs(r.effects) == if fetchedEmpty then [DownloadFailedDialog] else []
    ensures InputsValid(ticker, start, end) && !fetchedEmpty ==> DownloadedDialog(ticker) in r.effects
    ensures forall p :: WriteCsv(p) in r.effects <==>
      p == DataFileName(ticker) && InputsValid(ticker, start, end) && !fetchedEmpty
    ensures r.files == if InputsValid(ticker, start, end) && !fetchedEmpty
                       then files + {DataFileName(ticker)} else files
  {
    if !(ValidateTicker(ticker) && ValidateDate(start) && ValidateDate(end)) then
      var dialog := if !ValidateTicker(ticker) then InvalidTickerDialog else InvalidDateDialog;
      Outcome([dialog], files)
    else if !fetchedEmpty then
      var path := DataFileName(ticker);
      var effects := [Fetch(ticker, start, end), WriteCsv(path), DownloadedDialog(ticker)];
      assert ErrorDialogs(effects[2..]) == [] && ErrorDialogs(effects[1..]) == [];
      Outcome(effects, files + {path})
    else
      Outcome([Fetch(ticker, start, end), DownloadFailedDialog], files)
  }

  /** `MyApp.plot_strategy` (ScanEQ.py:112-125).  The ticker is validated again, its
      data file is read, and the backtest runs only when that file exists. */
  function PlotStrategy(strategy: StrategyKind, ticker: string, files: set<string>): (effects: seq<Effect>)
    ensures !ValidateTicker(ticker) ==> effects == [InvalidTickerDialog]
    ensures forall e :: e in effects ==> !e.Fetch? && !e.WriteCsv?
    ensures forall p :: ReadCsv(p) in effects ==> p == DataFileName(ticker)
    ensures (exists e :: e in effects && e.RunBacktest?) <==>
      ValidateTicker(ticker) && DataFileName(ticker) in files
    ensures forall e :: e in effects && e.RunBacktest? ==>
      e == RunBacktest(strategy, DataFileName(ticker), StartingCash, CommissionRate)
    ensures |ErrorDialogs(effects)| <= 1
    ensures ValidateTicker(ticker) ==> |effects| >= 1 && effects[0] == ReadCsv(DataFileName(ticker))
    ensures ValidateTicker(ticker) ==>
      ErrorDialogs(effects) == if DataFileName(ticker) in files then [] else [NoDataFileDialog(ticker)]
  {
    if !ValidateTicker(ticker) then [InvalidTickerDialog]
    else
      var path := DataFileName(ticker);
      if path !in files then [ReadCsv(path), NoDataFileDialog(ticker)]
      else
        var run := RunBacktest(strategy, path, StartingCash, CommissionRate);
        var effects := [ReadCsv(path), run, ShowPlot];
        assert run in effects;
        assert ErrorDialogs(effects[2..]) == [] && ErrorDialogs(effects[1..]) == [];
        effects
  }

  /** A successful download is found by a later plot of the same ticker: the file
      the plot reads is the file the download wrote, and the backtest runs on it. */
  lemma DownloadThenPlot(ticker: string, start: string, end: string, files: set<string>, strategy: StrategyKind)
    requires InputsValid(ticker, start, end)
    ensures var d := DownloadData(ticker, start, end, files, false);
      WriteCsv(DataFileName(ticker)) in d.effects &&
      PlotStrategy(strategy, ticker, d.files) ==
        [ReadCsv(DataFileName(ticker)),
         RunBacktest(strategy, DataFileName(ticker), StartingCash, CommissionRate),
         ShowPlot]
  {
  }

  /** The path written on download and the path read on plot are the same path
      exactly when the tickers are the same. */
  lemma WriteAndReadAgree(t1: string, start: string, end: string, files: set<string>, fetchedEmpty: bool,
                          strategy: StrategyKind, t2: string, files2: set<string>, p: string, q: string)
    requires WriteCsv(p) in DownloadData(t1, start, end, files, fetchedEmpty).effects
    requires ReadCsv(q) in PlotStrategy(strategy, t2, files2)
    ensures p == q <==> t1 == t2
  {
    DataFileNameInjective(t1, t2);
  }
}
