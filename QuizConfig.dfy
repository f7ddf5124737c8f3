/**
 * The quiz-range form: its initial values and the submit handler, which
 * clears the error message and then runs four checks in a fixed order, the
 * first failing one setting its message; only when all pass is the chosen
 * configuration handed on.
 */
module QuizConfig {
  import opened Wrappers
  import opened Text

  datatype Config = Config(start: int, end: int, count: int)

  /** The four refusals, in the order they are checked. */
  datatype ConfigError =
    | StartBelowOne
    | EndAboveTotal(total: int)
    | StartAfterEnd
    | NotEnoughAvailable(available: int, requested: int)

  /**
   * The text `setError` shows for a refusal. The two start refusals are fixed
   * texts; the end refusal names the total in parentheses; the count refusal
   * ends with the available and the requested counts.
   */
  function Message(e: ConfigError): (r: string)
    ensures r == StartBelowText <==> e.StartBelowOne?
    ensures r == StartAfterText <==> e.StartAfterEnd?
    ensures e.EndAboveTotal? ==>
      var tail := "(" + IntToString(e.total) + ")";
      |r| == |EndPrefix| + |tail| && r[..|EndPrefix|] == EndPrefix && r[|EndPrefix|..] == tail
    ensures e.NotEnoughAvailable? ==>
      var tail := "Available: " + IntToString(e.available) + ", Requested: " + IntToString(e.requested);
      |r| == |CountPrefix| + |tail| && r[..|CountPrefix|] == CountPrefix && r[|CountPrefix|..] == tail
  {
    match e
    case StartBelowOne =>
      assert |StartBelowText| != |StartAfterText|;
      StartBelowText
    case EndAboveTotal(total) =>
      var r := EndPrefix + ("(" + IntToString(total) + ")");
      assert r[0] == EndPrefix[0] == 'E';
      assert StartBelowText[0] == StartAfterText[0] == 'S';
      r
    case StartAfterEnd =>
      assert |StartBelowText| != |StartAfterText|;
      StartAfterText
    case NotEnoughAvailable(available, requested) =>
      var r := CountPrefix + ("Available: " + IntToString(available) + ", Requested: " + IntToString(requested));
      assert r[0] == CountPrefix[0] == 'N';
      assert StartBelowText[0] == StartAfterText[0] == 'S';
      r
  }

  const StartBelowText := "Start number must be at least 1"
  const StartAfterText := "Start number must be less than or equal to end number"
  const EndPrefix := "End number cannot exceed total questions "
  const CountPrefix := "Not enough questions in range. "

  /** Different refusals never show the same text, so the message tells which check failed. */
  lemma MessagesDistinct(e1: ConfigError, e2: ConfigError)
    requires Message(e1) == Message(e2)
    ensures e1.StartBelowOne? == e2.StartBelowOne? && e1.EndAboveTotal? == e2.EndAboveTotal?
    ensures e1.StartAfterEnd? == e2.StartAfterEnd? && e1.NotEnoughAvailable? == e2.NotEnoughAvailable?
  {
    var m := Message(e1);
    if e1.EndAboveTotal? || e2.EndAboveTotal? {
      assert m[0] == m[..|EndPrefix|][0] == EndPrefix[0] == 'E';
    }
    if e1.NotEnoughAvailable? || e2.NotEnoughAvailable? {
      assert m[0] == m[..|CountPrefix|][0] == CountPrefix[0] == 'N';
    }
  }

  /** The check chain of `handleConfigure`, as a value: the first failing check, or the configuration to submit. */
  function Validate(start: int, end: int, count: int, total: int): (r: Result<Config, ConfigError>)
    ensures r.Success? ==> r.value == Config(start, end, count)
    ensures r.Failure? && r.error.NotEnoughAvailable? ==>
      r.error.available == end - start + 1 && r.error.requested == count && count > r.error.available
  {
    if start < 1 then Failure(StartBelowOne)
    else if end > total then Failure(EndAboveTotal(total))
    else if start > end then Failure(StartAfterEnd)
    else
      var available := end - start + 1;
      if count > available then Failure(NotEnoughAvailable(available, count))
      else Success(Config(start, end, count))
  }

  /** The form submits exactly when 1 <= start <= end <= total and count fits in the range. */
  lemma ValidateAccepts(start: int, end: int, count: int, total: int)
    ensures Validate(start, end, count, total).Success? <==> 1 <= start <= end <= total && count <= end - start + 1
  {
  }

  /** Each refusal is reported exactly when every earlier check passed and its own failed. */
  lemma ValidateFirstFailure(start: int, end: int, count: int, total: int)
    ensures var r := Validate(start, end, count, total);
      && (r == Failure(StartBelowOne) <==> start < 1)
      && (r == Failure(EndAboveTotal(total)) <==> 1 <= start && end > total)
      && (r == Failure(StartAfterEnd) <==> 1 <= start && end <= total && start > end)
      && (r.Failure? && r.error.NotEnoughAvailable? <==> 1 <= start <= end <= total && count > end - start + 1)
  {
  }

  /** The handler sets no lower bound on count: zero or a negative count passes when the range is valid. */
  lemma NonPositiveCountAccepted(start: int, end: int, count: int, total: int)
    requires 1 <= start <= end <= total && count <= 0
    ensures Validate(start, end, count, total) == Success(Config(start, end, count))
  {
  }

  function Min(a: int, b: int): int {
    if a <= b then a else b
  }

  /** The form's state: the three inputs, the error line, and the total it was opened with. */
  class QuizConfigForm {
    const totalQuestions: int
    var start: int
    var end: int
    var count: int
    var error: string

    constructor(totalQuestions: int)
      ensures this.totalQuestions == totalQuestions
      ensures start == 1 && end == Min(100, totalQuestions) && count == 10 && error == ""
    {
      this.totalQuestions := totalQuestions;
      start := 1;
      end := Min(100, totalQuestions);
      count := 10;
      error := "";
    }

    method SetStart(value: int)
      modifies this`start
      ensures start == value
    {
      start := value;
    }

    method SetEnd(value: int)
      modifies this`end
      ensures end == value
    {
      end := value;
    }

    method SetCount(value: int)
      modifies this`count
      ensures count == value
    {
      count := value;
    }

    /**
     * `handleConfigure`: clears the error, then checks start, end, their order
     * and the available count in turn. The result is the configuration passed
     * to `onConfigure`, or None when a check failed and set its message.
     */
    method HandleConfigure() returns (submitted: Option<Config>)
      modifies this`error
      ensures var r := Validate(start, end, count, totalQuestions);
        && (r.Success? ==> submitted == Some(r.value) && error == "")
        && (r.Failure? ==> submitted == None && error == Message(r.error))
    {
      error := "";
      if start < 1 {
        error := Message(StartBelowOne);
        return None;
      }
      if end > totalQuestions {
        error := Message(EndAboveTotal(totalQuestions));
        return None;
      }
      if start > end {
        error := Message(StartAfterEnd);
        return None;
      }
      var available := end - start + 1;
      if count > available {
        error := Message(NotEnoughAvailable(available, count));
        return None;
      }
      submitted := Some(Config(start, end, count));
    }
  }
}
