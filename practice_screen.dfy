/**
 * The practice session: keypad input, answer scoring, the one-second timer,
 * the end of a timed or oral session and the mm:ss clock display.
 *
 * The React state of the screen becomes the fields of a Session object and
 * each handler a method on it. The next generated problem is a parameter of
 * the handlers that load one.
 */
module PracticeScreen {
  import opened Wrappers
  import opened Text
  import opened Types
  import opened Arith

  /** The answer box holds at most this many characters. */
  const MaxInputLength := 8

  function Abs(x: int): nat { if x < 0 then -x else x }

  // ---------------------------------------------------------------------------
  // Scoring

  /**
   * Math.abs(parseFloat(input) - answer) < 0.01, in exact decimal arithmetic:
   * with the input read as mantissa / 10^scale, 100 * |mantissa - answer * 10^scale| < 10^scale.
   * NaN (no number in the input) compares false.
   */
  predicate IsCorrect(input: string, answer: int): (r: bool)
    ensures r <==> (
      && ParseFloat(input).Some?
      && var v := ParseFloat(input).value;
         var diff := (v.mantissa as real) / (Pow10(v.scale) as real) - answer as real;
         -0.01 < diff < 0.01)
  {
    match ParseFloat(input)
    case None => false
    case Some(v) =>
      RatioNear(v.mantissa, Pow10(v.scale), answer);
      100 * Abs(v.mantissa - answer * Pow10(v.scale)) < Pow10(v.scale)
  }

  /** An empty answer box is always scored incorrect. */
  lemma EmptyInputIsIncorrect(answer: int)
    ensures !IsCorrect([], answer)
  {
  }

  lemma {:induction false} LeadingDigitsOfDigits(s: string)
    requires AllDigits(s)
    ensures LeadingDigits(s) == s
  {
    if s != [] {
      LeadingDigitsOfDigits(s[1..]);
      assert s == [s[0]] + s[1..];
    }
  }

  /** A non-empty all-digit input is correct exactly when its value is the answer. */
  lemma DigitInputCorrectIff(input: string, answer: int)
    requires input != [] && AllDigits(input)
    ensures IsCorrect(input, answer) <==> DigitsValue(input) == answer
  {
    LeadingDigitsOfDigits(input);
    assert input[|input|..] == [];
    assert input + [] == input;
    var v := ParseFloat(input);
    assert v == Some(Decimal(DigitsValue(input), 0));
  }

  /** Typing the decimal digits of a non-negative answer is scored correct. */
  lemma TypedAnswerIsCorrect(answer: nat)
    ensures IsCorrect(NatToString(answer), answer)
  {
    DigitsValueOfNatToString(answer);
    DigitInputCorrectIff(NatToString(answer), answer);
  }

  /** A key the on-screen keypad sends: a decimal digit or '.'. */
  predicate IsKeypadKey(c: char) { IsDigit(c) || c == '.' }

  /** Text typed on the keypad: its keys only. */
  predicate IsKeypadText(s: string) { forall i :: 0 <= i < |s| ==> IsKeypadKey(s[i]) }

  /**
   * The keypad has no minus key and parseFloat of its characters is never
   * negative, so a problem whose answer is negative can never be scored correct.
   */
  lemma NegativeAnswerNeverCorrect(input: string, answer: int)
    requires IsKeypadText(input) && answer < 0
    ensures !IsCorrect(input, answer)
  {
    match ParseFloat(input)
    case None =>
    case Some(v) =>
      var p: int := Pow10(v.scale);
      MulLe(1, -answer, p);
      assert answer * p <= -p;
  }

  // ---------------------------------------------------------------------------
  // formatTime

  /** formatTime: minutes and seconds, each padded with '0' to two characters, joined by ':'. */
  function FormatTime(seconds: nat): (r: string)
    ensures |r| >= 5
  {
    PadStart(NatToString(seconds / 60), 2, '0') + ":" + PadStart(NatToString(seconds % 60), 2, '0')
  }

  lemma ShortRendering(n: nat)
    requires n < 100
    ensures |NatToString(n)| <= 2
  {
    if n >= 10 {
      assert NatToString(n) == NatToString(n / 10) + [DigitChar(n % 10)];
    }
  }

  lemma PaddedValue(n: nat)
    ensures var t := PadStart(NatToString(n), 2, '0');
      AllDigits(t) && DigitsValue(t) == n
  {
    var s := NatToString(n);
    var t := PadStart(s, 2, '0');
    var z := t[..|t| - |s|];
    assert t == z + s;
    LeadingZeros(z, s);
    DigitsValueOfNatToString(n);
  }

  /** Two padded fields around ':' read back as the two numbers they render. */
  lemma ClockFields(minutes: nat, secs: nat)
    requires secs < 100
    ensures ClockReads(PadStart(NatToString(minutes), 2, '0') + ":" + PadStart(NatToString(secs), 2, '0'), minutes, secs)
  {
    var m := PadStart(NatToString(minutes), 2, '0');
    var s := PadStart(NatToString(secs), 2, '0');
    assert |s| == 2 by { ShortRendering(secs); }
    assert AllDigits(m) && DigitsValue(m) == minutes by { PaddedValue(minutes); }
    assert AllDigits(s) && DigitsValue(s) == secs by { PaddedValue(secs); }
    AroundColon(m, s, minutes, secs);
  }

  /** The width padStart(2, '0') gives the minutes: their digit count, and never less than two. */
  function MinutesWidth(minutes: nat): nat
  {
    if |NatToString(minutes)| >= 2 then |NatToString(minutes)| else 2
  }

  /**
   * r is a clock reading: the minutes field, exactly as wide as padStart makes
   * it, then ':', then a field of two digits, with these values.
   */
  predicate ClockReads(r: string, minutes: nat, secs: nat)
  {
    && |r| >= 5 && r[|r| - 3] == ':'
    && |r| - 3 == MinutesWidth(minutes)
    && AllDigits(r[..|r| - 3]) && AllDigits(r[|r| - 2..])
    && DigitsValue(r[..|r| - 3]) == minutes
    && DigitsValue(r[|r| - 2..]) == secs
  }

  lemma AroundColon(m: string, s: string, minutes: nat, secs: nat)
    requires |m| == MinutesWidth(minutes) && AllDigits(m) && DigitsValue(m) == minutes
    requires |s| == 2 && AllDigits(s) && DigitsValue(s) == secs
    ensures ClockReads(m + ":" + s, minutes, secs)
  {
    var r := m + ":" + s;
    assert r[..|r| - 3] == m;
    assert r[|r| - 2..] == s;
  }

  /**
   * The clock reads as two digit fields around ':': the first is the number of
   * whole minutes, the second the remaining seconds in exactly two digits.
   */
  lemma FormatTimeFields(seconds: nat)
    ensures ClockReads(FormatTime(seconds), seconds / 60, seconds % 60)
  {
    assert seconds % 60 < 100;
    ClockFields(seconds / 60, seconds % 60);
  }

  // ---------------------------------------------------------------------------
  // Session totals

  /** How many history entries were judged correct. */
  function CorrectIn(h: seq<HistoryEntry>): (n: nat)
    ensures n <= |h|
  {
    if h == [] then 0 else CorrectIn(h[..|h| - 1]) + (if h[|h| - 1].isCorrect then 1 else 0)
  }

  /** Recording one answered problem: one more entry, one more answer, one more correct if it was. */
  function Record(t: DrillResult, entry: HistoryEntry): DrillResult
  {
    DrillResult(t.correct + (if entry.isCorrect then 1 else 0), t.total + 1, t.history + [entry])
  }

  /** The seconds a timed session runs. */
  function LimitSeconds(c: PracticeConfig): nat { c.timeLimit * 60 }

  /** The answers an oral session takes: numberOfSums, and never fewer than one. */
  function OralLength(c: PracticeConfig): nat { if c.numberOfSums == 0 then 1 else c.numberOfSums }

  /**
   * What onFinish receives, as written, when handleNext ends an oral session:
   * finishSession reads the counters of the render that handled the click,
   * from before the answer just recorded. Against the totals with that answer
   * recorded, the report is one answer short and lacks the last entry.
   */
  function OralReportAsWritten(before: DrillResult, entry: HistoryEntry): (r: DrillResult)
    ensures var recorded := Record(before, entry);
      && r.total + 1 == recorded.total
      && recorded.history == r.history + [entry]
      && r.correct + (if entry.isCorrect then 1 else 0) == recorded.correct
  {
    before
  }

  /**
   * What onFinish receives, as written, when the timer ends a session: the
   * interval was installed at mount and calls the finishSession of that first
   * render, whose counters are all still zero, whatever has been answered since.
   */
  function TimedReportAsWritten(current: DrillResult): (r: DrillResult)
    ensures r.correct == 0 && r.total == 0 && r.history == []
    ensures current.total > 0 ==> r != current
  {
    DrillResult(0, 0, [])
  }

  /**
   * As written, an oral drill of five sums (the smallest count the settings
   * offer) ends on the fifth answer, which handleNext reaches with four
   * answers recorded: the report holds four answers where five were given.
   */
  lemma OralReportAsWrittenOmitsLastAnswer(c: PracticeConfig, before: DrillResult, entry: HistoryEntry)
    requires c.mode == Oral && c.numberOfSums == 5
    requires before.total == |before.history| && before.total + 1 >= c.numberOfSums
    requires before.total < OralLength(c)
    ensures before.total == 4
    ensures OralReportAsWritten(before, entry).total == 4 && |OralReportAsWritten(before, entry).history| == 4
    ensures Record(before, entry).total == 5 && Record(before, entry).history[4] == entry
  {
  }

  /** As written, a timed session that answered three problems correctly reports a total of zero. */
  lemma TimedReportAsWrittenIsEmpty(answered: seq<HistoryEntry>)
    requires |answered| == 3 && forall i :: 0 <= i < 3 ==> answered[i].isCorrect
    ensures TimedReportAsWritten(DrillResult(CorrectIn(answered), 3, answered)).total == 0
    ensures CorrectIn(answered) == 3
  {
    var two := answered[..2];
    var one := two[..1];
    assert one[..0] == [] && one[0] == answered[0];
    assert CorrectIn(one) == 1;
    assert two[..1] == one && two[1] == answered[1];
    assert CorrectIn(two) == 2;
  }

  // ---------------------------------------------------------------------------
  // The session state machine

  class Session {
    const config: PracticeConfig
    var currentProblem: Option<DrillProblem>
    var input: string
    var timer: nat         // elapsed seconds
    var count: nat         // problems answered
    var correctCount: nat
    var history: seq<HistoryEntry>
    /** What finishSession handed to onFinish; None while the session runs. */
    var report: Option<DrillResult>

    function Tally(): DrillResult
      reads this
    {
      DrillResult(correctCount, count, history)
    }

    predicate Finished()
      reads this
    {
      report.Some?
    }

    ghost predicate Valid()
      reads this
    {
      && |input| <= MaxInputLength && IsKeypadText(input)
      && |history| == count
      && correctCount == CorrectIn(history)
      && (config.mode == Timed ==> timer <= LimitSeconds(config))
      && (config.mode == Timed && Finished() ==> timer == LimitSeconds(config))
      && (config.mode == Oral ==> timer == 0)
      && (config.mode == Oral ==>
            if Finished() then count == OralLength(config) else count < OralLength(config))
      && (Finished() ==> report.value == Tally())
    }

    /** The state on mount, before the first problem is loaded. */
    constructor (config: PracticeConfig)
      ensures Valid() && !Finished()
      ensures this.config == config && currentProblem == None && input == []
      ensures timer == 0 && count == 0 && correctCount == 0 && history == []
    {
      this.config := config;
      currentProblem := None;
      input := [];
      timer := 0;
      count := 0;
      correctCount := 0;
      history := [];
      report := None;
    }

    /** loadNextProblem: show the next problem with an empty answer box (run on mount and after each answer). */
    method LoadNextProblem(problem: DrillProblem)
      requires Valid() && !Finished()
      modifies this`currentProblem, this`input
      ensures Valid() && !Finished()
      ensures currentProblem == Some(problem) && input == []
    {
      currentProblem := Some(problem);
      input := [];
    }

    /** handleInput: append the key while the answer box holds fewer than eight characters. */
    method HandleInput(key: char)
      requires Valid() && !Finished() && IsKeypadKey(key)
      modifies this`input
      ensures Valid() && !Finished()
      ensures input == if |old(input)| < MaxInputLength then old(input) + [key] else old(input)
    {
      if |input| < MaxInputLength {
        input := input + [key];
      }
    }

    /** handleDelete: drop the last character; an empty answer box stays empty. */
    method HandleDelete()
      requires Valid() && !Finished()
      modifies this`input
      ensures Valid() && !Finished()
      ensures input == if old(input) == [] then [] else old(input)[..|old(input)| - 1]
    {
      if input != [] {
        input := input[..|input| - 1];
      }
    }

    /**
     * finishSession: hand the session's totals and history over. A sub-step of
     * HandleNext and Tick only; they establish Valid() around it.
     */
    method FinishSession()
      requires !Finished()
      modifies this`report
      ensures report == Some(Tally())
    {
      report := Some(Tally());
    }

    /**
     * The three updates of handleNext: append the entry, count it, and count it
     * as correct if it was. A sub-step of HandleNext only, which re-establishes Valid().
     */
    method RecordAnswer(entry: HistoryEntry)
      requires |history| == count && correctCount == CorrectIn(history)
      modifies this`history, this`correctCount, this`count
      ensures Tally() == Record(old(Tally()), entry)
      ensures |history| == count && correctCount == CorrectIn(history)
    {
      assert (history + [entry])[..|history|] == history;
      history := history + [entry];
      if entry.isCorrect {
        correctCount := correctCount + 1;
      }
      count := count + 1;
    }

    /**
     * handleNext: score the typed answer against the current problem, record
     * it, and either end an oral session that has reached numberOfSums or
     * load the next problem. Without a current problem nothing happens.
     */
    method HandleNext(next: DrillProblem)
      requires Valid() && !Finished()
      modifies this
      ensures Valid()
      ensures old(currentProblem).None? ==>
        currentProblem == old(currentProblem) && input == old(input) && Tally() == old(Tally()) && !Finished()
      ensures old(currentProblem).Some? ==>
        var problem := old(currentProblem).value;
        var entry := HistoryEntry(problem, ParseFloat(old(input)), IsCorrect(old(input), problem.answer));
        && Tally() == Record(old(Tally()), entry)
        && (Finished() <==> config.mode == Oral && old(count) + 1 >= config.numberOfSums)
        && (Finished() ==> report == Some(Tally()))
        && (Finished() ==> currentProblem == old(currentProblem) && input == old(input))
        && (!Finished() ==> currentProblem == Some(next) && input == [])
      ensures timer == old(timer)
    {
      if currentProblem.None? {
        return;
      }
      var problem := currentProblem.value;
      var userVal := ParseFloat(input);
      var isCorrect := IsCorrect(input, problem.answer);
      RecordAnswer(HistoryEntry(problem, userVal, isCorrect));
      if config.mode == Oral && count >= config.numberOfSums {
        FinishSession();
      } else {
        currentProblem := Some(next);
        input := [];
      }
    }

    /**
     * The one-second tick of a timed session: advance the clock until it
     * reaches timeLimit minutes; the tick after that ends the session and
     * leaves the clock where it is.
     */
    method Tick()
      requires Valid() && !Finished() && config.mode == Timed
      modifies this
      ensures Valid()
      ensures Finished() <==> old(timer) == LimitSeconds(config)
      ensures Finished() ==> report == Some(Tally())
      ensures timer == if Finished() then old(timer) else old(timer) + 1
      ensures Tally() == old(Tally()) && currentProblem == old(currentProblem) && input == old(input)
    {
      if timer >= LimitSeconds(config) {
        FinishSession();
      } else {
        timer := timer + 1;
      }
    }
  }
}
