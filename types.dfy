/** The records and enumerations shared by the generator, the session and the app shell. */
module Types {
  import opened Wrappers
  import opened Text

  datatype Mode = Timed | Oral

  datatype Operation = AddLess | Multiply | Divide

  /** Addition only, or "Add Less": rows after the first may be subtracted. */
  datatype SumsType = Addition | AddAndLess

  /**
   * One practice configuration. Counts and digit counts are whole numbers;
   * interval is a real because the settings slider moves in half-second steps.
   */
  datatype PracticeConfig = PracticeConfig(
    mode: Mode,
    operation: Operation,
    sumsType: SumsType,
    digits: string,        // "1", "2", "2-1", ...
    rows: nat,
    timeLimit: nat,        // minutes
    interval: real,        // seconds between dictated numbers
    numberOfSums: nat,
    multiplicandDigits: nat,
    multiplicatorDigits: nat,
    dividendDigits: nat,
    divisorDigits: nat)

  datatype SavedPreset = SavedPreset(id: string, name: string, config: PracticeConfig)

  /** numbers: one signed entry per row for add/less; [a, b] for multiply and divide. */
  datatype DrillProblem = DrillProblem(id: string, numbers: seq<int>, answer: int, displayString: string)

  /** One answered problem; userAnswer is None where parseFloat gave NaN. */
  datatype HistoryEntry = HistoryEntry(problem: DrillProblem, userAnswer: Option<Decimal>, isCorrect: bool)

  datatype DrillResult = DrillResult(correct: nat, total: nat, history: seq<HistoryEntry>)
}
