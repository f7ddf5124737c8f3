/**
 * The line-oriented question parser of the backend (`PDFQuestionParser`).
 *
 * The text extracted from a PDF is split on '\n'; each line is stripped and
 * classified by two patterns, a question header `101. Text` and an option
 * `A) Text`. The parser remembers the question in progress and a letter ->
 * text map of its options, and emits a question, options ordered A, B, C, D,
 * only when that map holds four letters when the next header arrives or the
 * text ends. `Step`/`Run`/`Parse` are the reference definition of one pass;
 * `ParseQuestions` is the loop itself, proved equal to it.
 */
module QuestionParser {
  import opened Wrappers
  import opened Text
  import opened Sequences

  /** `QuestionModel`: the declared numeral, the question text and the four options in the order A, B, C, D. */
  datatype Question = Question(id: int, question: string, options: seq<string>)

  /** The question in progress, `{'id': ..., 'text': ...}`. */
  datatype Header = Header(id: int, text: string)

  /** The letters the option pattern accepts, `[A-D]`. */
  const Letters: set<char> := {'A', 'B', 'C', 'D'}

  /** The option letters in the order a record lists their texts (`for opt in 'ABCD'`). */
  const LetterOrder: string := "ABCD"

  /** A line as the loop body sees it: one piece of the split text, after `strip()`. */
  predicate IsParserLine(line: string) {
    '\n' !in line && IsStripped(line)
  }

  // ---------------------------------------------------------------------------
  // The two patterns, on stripped lines.

  /**
   * Shape of a line that the question pattern `^\s*(\d+)\.\s+(.+?)$` accepts:
   * a non-empty digit run, a '.', and whitespace. On a stripped line the last
   * character is not whitespace, so a non-empty remainder always follows.
   */
  predicate LooksLikeHeader(line: string) {
    exists d :: 0 < d && d + 1 < |line| && DigitsBetween(line, 0, d) && line[d] == '.' && IsSpace(line[d + 1])
  }

  /** Shape of a line that the option pattern `^\s*([A-D])\)\s*(.+)$` accepts. */
  predicate LooksLikeOption(line: string) {
    |line| >= 3 && line[0] in Letters && line[1] == ')'
  }

  /**
   * The question pattern. The id is the value of the leading digit run; the
   * text is what follows the '.' and the whitespace after it, trimmed. (The
   * lazy `(.+?)$` needs one more character; the stripped line ends in a
   * non-space, so it is always there.)
   */
  function MatchQuestion(line: string): Option<Header>
    requires IsParserLine(line)
  {
    var d := SkipDigits(line, 0);
    if d == 0 || d == |line| || line[d] != '.' then None
    else
      var k := SkipSpaces(line, d + 1);
      if k == d + 1 then None
      else Some(Header(DigitsValue(line[..d]), Strip(line[k..])))
  }

  /**
   * What the question pattern accepts and captures: exactly the header-shaped
   * lines; the id is the value of the maximal digit run, which the '.'
   * follows, and the text is the non-empty rest of the line after the
   * whitespace run that follows the '.'.
   */
  lemma MatchQuestionSpec(line: string)
    requires IsParserLine(line)
    ensures MatchQuestion(line).Some? <==> LooksLikeHeader(line)
    ensures MatchQuestion(line).Some? ==>
      var d := SkipDigits(line, 0);
      var k := SkipSpaces(line, d + 1);
      && 0 < d && line[d] == '.' && d + 1 < k < |line|
      && MatchQuestion(line) == Some(Header(DigitsValue(line[..d]), line[k..]))
  {
    var d := SkipDigits(line, 0);
    if LooksLikeHeader(line) {
      var e :| 0 < e && e + 1 < |line| && DigitsBetween(line, 0, e) && line[e] == '.' && IsSpace(line[e + 1]);
      assert !IsDigit(line[e]);
      assert d == e;
      var k := SkipSpaces(line, d + 1);
      assert k < |line|;
      assert IsStripped(line[k..]);
      StripStripped(line[k..]);
    } else if d != 0 && d != |line| && line[d] == '.' {
      assert SkipSpaces(line, d + 1) == d + 1;
    }
  }

  /** The option pattern: the letter, and the text after `)` and optional whitespace, trimmed. */
  function MatchOption(line: string): Option<(char, string)>
    requires IsParserLine(line)
  {
    if |line| < 2 || line[0] !in Letters || line[1] != ')' || |line| == 2 then None
    else Some((line[0], Strip(line[SkipSpaces(line, 2)..])))
  }

  /**
   * What the option pattern accepts and captures: an upper-case letter A-D,
   * `)`, and a non-empty text, which is the rest of the line after optional
   * whitespace. A lower-case letter, `E)` or an empty text is no option.
   */
  lemma MatchOptionSpec(line: string)
    requires IsParserLine(line)
    ensures MatchOption(line).Some? <==> LooksLikeOption(line)
    ensures MatchOption(line).Some? ==>
      var k := SkipSpaces(line, 2);
      && 2 <= k < |line|
      && MatchOption(line) == Some((line[0], line[k..]))
  {
    if LooksLikeOption(line) {
      var k := SkipSpaces(line, 2);
      assert k < |line|;
      assert IsStripped(line[k..]);
      StripStripped(line[k..]);
    }
  }

  // ---------------------------------------------------------------------------
  // One pass over the lines.

  /** The loop's variables: `questions`, `current_question` and `current_options`. */
  datatype ParserState = ParserState(questions: seq<Question>, current: Option<Header>, options: map<char, string>)

  const Init: ParserState := ParserState([], None, map[])

  /**
   * What every reachable state satisfies: options are recorded only under a
   * header and only for the letters A-D, and every emitted record has four options.
   */
  predicate ValidState(st: ParserState) {
    && st.options.Keys <= Letters
    && (st.current.None? ==> st.options == map[])
    && forall q :: q in st.questions ==> |q.options| == 4
  }

  /** The emitted record: position k holds the text recorded for the k-th letter of "ABCD". */
  function Record(h: Header, opts: map<char, string>): (q: Question)
    requires Letters <= opts.Keys
    ensures q.id == h.id && q.question == h.text && |q.options| == 4
    ensures forall k :: 0 <= k < 4 ==> LetterOrder[k] in opts && q.options[k] == opts[LetterOrder[k]]
  {
    Question(h.id, h.text, [opts['A'], opts['B'], opts['C'], opts['D']])
  }

  /** Four recorded letters, out of A-D, are all four letters: the source's `len(current_options) == 4`. */
  lemma FourOptionsAreAllLetters(opts: map<char, string>)
    requires opts.Keys <= Letters
    ensures |opts| == 4 <==> opts.Keys == Letters
  {
    assert |Letters| == 4;
    var missing := Letters - opts.Keys;
    assert Letters == opts.Keys + missing;
    assert |Letters| == |opts.Keys| + |missing|;
    if |opts| == 4 {
      assert missing == {};
    }
  }

  /** The record list after the question in progress is saved, if it has four options. */
  function Flush(st: ParserState): (qs: seq<Question>)
    requires ValidState(st)
    ensures forall q :: q in qs ==> |q.options| == 4
  {
    if st.current.Some? && |st.options| == 4 then
      FourOptionsAreAllLetters(st.options);
      st.questions + [Record(st.current.value, st.options)]
    else st.questions
  }

  /** One iteration of the loop on a raw line. */
  function Step(st: ParserState, raw: string): (st': ParserState)
    requires ValidState(st)
    requires '\n' !in raw
    ensures ValidState(st')
  {
    var line := Strip(raw);
    if line == [] then st
    else match MatchQuestion(line)
      case Some(h) => ParserState(Flush(st), Some(h), map[])
      case None =>
        if st.current.None? then st
        else match MatchOption(line)
          case Some((letter, text)) => st.(options := st.options[letter := text])
          case None => st
  }

  /** The state after the loop has consumed `lines`, starting from `st`. */
  function Run(st: ParserState, lines: seq<string>): (st': ParserState)
    requires ValidState(st)
    requires forall l :: l in lines ==> '\n' !in l
    ensures ValidState(st')
  {
    if lines == [] then st
    else
      var prefix := lines[..|lines| - 1];
      assert forall l :: l in prefix ==> l in lines;
      Step(Run(st, prefix), lines[|lines| - 1])
  }

  /** `parse_questions`: run over the lines of `text`, then save the last question. */
  function Parse(text: string): (qs: seq<Question>)
    ensures forall q :: q in qs ==> |q.options| == 4
  {
    Flush(Run(Init, Split(text, '\n')))
  }

  /**
   * `PDFQuestionParser.parse_questions`: a single loop over the split lines
   * that updates the question in progress and its option map in place.
   */
  method ParseQuestions(text: string) returns (questions: seq<Question>)
    ensures questions == Parse(text)
  {
    var lines := Split(text, '\n');
    questions := [];
    var current: Option<Header> := None;
    var options: map<char, string> := map[];
    for i := 0 to |lines|
      invariant forall l :: l in lines[..i] ==> l in lines
      invariant ParserState(questions, current, options) == Run(Init, lines[..i])
    {
      assert lines[..i + 1][..i] == lines[..i];
      assert lines[..i + 1][i] == lines[i];
      var line := Strip(lines[i]);
      if line == [] {
        continue;
      }
      var header := MatchQuestion(line);
      if header.Some? {
        if current.Some? && |options| == 4 {
          FourOptionsAreAllLetters(options);
          questions := questions + [Record(current.value, options)];
        }
        current := header;
        options := map[];
      } else if current.Some? {
        var option := MatchOption(line);
        if option.Some? {
          options := options[option.value.0 := option.value.1];
        }
      }
    }
    assert lines[..|lines|] == lines;
    if current.Some? && |options| == 4 {
      FourOptionsAreAllLetters(options);
      questions := questions + [Record(current.value, options)];
    }
  }

  /** The inclusive id test of the filter, `start <= q.id <= end`. */
  predicate InRange(q: Question, start: int, end: int) {
    start <= q.id <= end
  }

  /** `PDFQuestionParser.filter_by_range`: the records whose id lies in [start, end], in their original order. */
  function FilterByRange(qs: seq<Question>, start: int, end: int): (r: seq<Question>)
    ensures |r| <= |qs|
  {
    if qs == [] then []
    else
      var init, last := qs[..|qs| - 1], qs[|qs| - 1];
      FilterByRange(init, start, end) + (if InRange(last, start, end) then [last] else [])
  }

  /** The filter's result is a subsequence of its input. */
  lemma {:induction false} FilterSubsequence(qs: seq<Question>, start: int, end: int)
    ensures IsSubsequence(FilterByRange(qs, start, end), qs)
  {
    if qs != [] {
      var init, last := qs[..|qs| - 1], qs[|qs| - 1];
      assert qs == init + [last];
      FilterSubsequence(init, start, end);
      var rest := FilterByRange(init, start, end);
      if InRange(last, start, end) {
        SubsequenceAppend(rest, init, last);
      } else {
        assert FilterByRange(qs, start, end) == rest;
        SubsequenceExtend(rest, init, last);
      }
    }
  }

  /** The filter keeps every in-range record as often as it occurs, and nothing else. */
  lemma {:induction false} FilterCounts(qs: seq<Question>, start: int, end: int)
    ensures forall q :: multiset(FilterByRange(qs, start, end))[q] == if InRange(q, start, end) then multiset(qs)[q] else 0
  {
    if qs != [] {
      var init, last := qs[..|qs| - 1], qs[|qs| - 1];
      assert qs == init + [last];
      assert multiset(qs) == multiset(init) + multiset{last};
      FilterCounts(init, start, end);
      var rest := FilterByRange(init, start, end);
      var r := FilterByRange(qs, start, end);
      if InRange(last, start, end) {
        assert r == rest + [last];
        assert multiset(r) == multiset(rest) + multiset{last};
      } else {
        assert r == rest;
      }
    }
  }

  /**
   * The filter keeps exactly the in-range records, each as often as it occurs,
   * as a subsequence of the input (so in the input's order); nothing passes an empty range.
   */
  lemma FilterByRangeSpec(qs: seq<Question>, start: int, end: int)
    ensures var r := FilterByRange(qs, start, end);
      && IsSubsequence(r, qs)
      && (forall q :: q in r <==> q in qs && InRange(q, start, end))
      && (forall q :: InRange(q, start, end) ==> multiset(r)[q] == multiset(qs)[q])
      && (forall q :: !InRange(q, start, end) ==> multiset(r)[q] == 0)
      && (start > end ==> r == [])
  {
    var r := FilterByRange(qs, start, end);
    FilterSubsequence(qs, start, end);
    FilterCounts(qs, start, end);
    forall q
      ensures q in r <==> q in qs && InRange(q, start, end)
    {
      assert q in r <==> q in multiset(r);
      assert q in qs <==> q in multiset(qs);
    }
  }

}
