/**
 * What one pass of the question parser guarantees: lines that never matter,
 * headers that always reset the option map, records emitted only with all
 * four letters, output in source order, and the end-to-end result for a text
 * made of well-formed question blocks.
 */
module ParserProperties {
  import opened Wrappers
  import opened Text
  import opened Sequences
  import opened QuestionParser

  predicate NoNewlines(lines: seq<string>) {
    forall l :: l in lines ==> '\n' !in l
  }

  /** Running over `a + b` is running over `a` and then over `b`. */
  lemma {:induction false} RunAppend(st: ParserState, a: seq<string>, b: seq<string>)
    requires ValidState(st) && NoNewlines(a + b)
    ensures NoNewlines(a) && NoNewlines(b)
    ensures Run(st, a + b) == Run(Run(st, a), b)
    decreases |b|
  {
    assert forall l :: l in a ==> l in a + b;
    assert forall l :: l in b ==> l in a + b;
    if b == [] {
      assert a + b == a;
    } else {
      var b', x := b[..|b| - 1], b[|b| - 1];
      assert (a + b)[..|a + b| - 1] == a + b';
      assert (a + b)[|a + b| - 1] == x;
      assert forall l :: l in a + b' ==> l in a + b;
      RunAppend(st, a, b');
    }
  }

  /** The line as the parser classifies it: stripped, and matched against the question pattern. */
  function HeaderOf(raw: string): (h: Option<Header>)
    requires '\n' !in raw
  {
    var line := Strip(raw);
    if line == [] then None else MatchQuestion(line)
  }

  /** A line that neither pattern accepts, or that is blank after `strip()`. */
  predicate IsInert(raw: string)
    requires '\n' !in raw
  {
    var line := Strip(raw);
    line == [] || (MatchQuestion(line).None? && MatchOption(line).None?)
  }

  /** An inert line can be deleted anywhere without changing the parser state. */
  lemma InertLineIgnored(st: ParserState, a: seq<string>, l: string, b: seq<string>)
    requires ValidState(st) && NoNewlines(a + [l] + b)
    requires '\n' !in l && IsInert(l)
    ensures NoNewlines(a + b)
    ensures Run(st, a + [l] + b) == Run(st, a + b)
  {
    assert forall x :: x in a + b ==> x in a + [l] + b;
    RunAppend(st, a + [l], b);
    RunAppend(st, a, [l]);
    assert [l][..0] == [];
    assert Run(Run(st, a), [l]) == Step(Run(st, a), l);
    RunAppend(st, a, b);
  }

  /** The headers of `lines`, in order: every line the parser treats as the start of a question. */
  function HeadersOf(lines: seq<string>): seq<Header>
    requires NoNewlines(lines)
  {
    if lines == [] then []
    else
      var init := lines[..|lines| - 1];
      assert forall l :: l in init ==> l in lines;
      var h := HeaderOf(lines[|lines| - 1]);
      HeadersOf(init) + (if h.Some? then [h.value] else [])
  }

  /** Lines before the first header leave the initial state alone: options seen there are dropped. */
  lemma {:induction false} NoHeaderNoState(lines: seq<string>)
    requires NoNewlines(lines) && HeadersOf(lines) == []
    ensures Run(Init, lines) == Init
  {
    if lines != [] {
      var init := lines[..|lines| - 1];
      assert forall l :: l in init ==> l in lines;
      NoHeaderNoState(init);
    }
  }

  /** So the text before the first header never affects the output. */
  lemma TextBeforeFirstHeaderIgnored(a: seq<string>, b: seq<string>)
    requires NoNewlines(a + b)
    requires HeadersOf(a) == []
    ensures NoNewlines(b)
    ensures Run(Init, a + b) == Run(Init, b)
  {
    RunAppend(Init, a, b);
    NoHeaderNoState(a);
  }

  /** A header line always starts a new question and empties the option map, whatever came before. */
  lemma HeaderResets(st: ParserState, raw: string)
    requires ValidState(st) && '\n' !in raw
    requires HeaderOf(raw).Some?
    ensures Step(st, raw) == ParserState(Flush(st), HeaderOf(raw), map[])
  {
  }

  /**
   * The question in progress is emitted exactly when all four letters A-D
   * were recorded for it, and then as the next record after those already emitted.
   */
  lemma FlushEmitsOnlyComplete(st: ParserState)
    requires ValidState(st)
    ensures Flush(st) != st.questions <==> st.current.Some? && st.options.Keys == Letters
    ensures Flush(st) != st.questions ==> Flush(st) == st.questions + [Record(st.current.value, st.options)]
  {
    FourOptionsAreAllLetters(st.options);
  }

  /** A repeated option letter overwrites the earlier text; the set of recorded letters stays the same. */
  lemma RepeatedLetterOverwrites(st: ParserState, raw: string, letter: char, text: string)
    requires ValidState(st) && '\n' !in raw && st.current.Some?
    requires Strip(raw) != [] && MatchQuestion(Strip(raw)).None?
    requires MatchOption(Strip(raw)) == Some((letter, text))
    requires letter in st.options
    ensures Step(st, raw).options.Keys == st.options.Keys
    ensures Step(st, raw).options[letter] == text
    ensures forall c :: c in st.options && c != letter ==> Step(st, raw).options[c] == st.options[c]
    ensures Step(st, raw).questions == st.questions && Step(st, raw).current == st.current
  {
  }

  // ---------------------------------------------------------------------------
  // Source order.

  /** The header each record was built from. */
  function Announced(qs: seq<Question>): (hs: seq<Header>)
    ensures |hs| == |qs|
  {
    seq(|qs|, i requires 0 <= i < |qs| => Header(qs[i].id, qs[i].question))
  }

  function Pending(st: ParserState): seq<Header> {
    if st.current.Some? then [st.current.value] else []
  }

  lemma FlushAnnounced(st: ParserState, hs: seq<Header>)
    requires ValidState(st)
    requires IsSubsequence(Announced(st.questions) + Pending(st), hs)
    ensures IsSubsequence(Announced(Flush(st)), hs)
  {
    var a := Announced(st.questions);
    if st.current.Some? {
      if Flush(st) != st.questions {
        FourOptionsAreAllLetters(st.options);
        assert Announced(Flush(st)) == a + Pending(st);
      } else {
        SubsequenceDropLast(a, st.current.value, hs);
      }
    } else {
      assert a + Pending(st) == a;
    }
  }

  /** The emitted records and the question in progress follow the order of the header lines. */
  lemma {:induction false} RunFollowsHeaders(lines: seq<string>)
    requires NoNewlines(lines)
    ensures var st := Run(Init, lines); IsSubsequence(Announced(st.questions) + Pending(st), HeadersOf(lines))
  {
    if lines == [] {
      assert Announced([]) + Pending(Init) == [];
    } else {
      var init, l := lines[..|lines| - 1], lines[|lines| - 1];
      assert forall x :: x in init ==> x in lines;
      RunFollowsHeaders(init);
      var st0 := Run(Init, init);
      var st1 := Run(Init, lines);
      assert st1 == Step(st0, l);
      var h0 := HeadersOf(init);
      var a0 := Announced(st0.questions) + Pending(st0);
      if HeaderOf(l).Some? {
        var h := HeaderOf(l).value;
        assert HeadersOf(lines) == h0 + [h];
        FlushAnnounced(st0, h0);
        SubsequenceAppend(Announced(Flush(st0)), h0, h);
        assert st1 == ParserState(Flush(st0), Some(h), map[]);
        assert Announced(st1.questions) + Pending(st1) == Announced(Flush(st0)) + [h];
      } else {
        assert HeadersOf(lines) == h0;
        assert st1.questions == st0.questions && st1.current == st0.current;
      }
    }
  }

  /**
   * Records come out in source-line order: their (id, text) pairs form a
   * subsequence of the header lines, so there are never more records than header lines.
   */
  lemma ParseFollowsHeaders(text: string)
    ensures var lines := Split(text, '\n');
      && IsSubsequence(Announced(Parse(text)), HeadersOf(lines))
      && |Parse(text)| <= |HeadersOf(lines)|
  {
    var lines := Split(text, '\n');
    RunFollowsHeaders(lines);
    FlushAnnounced(Run(Init, lines), HeadersOf(lines));
    SubsequenceLength(Announced(Parse(text)), HeadersOf(lines));
  }

  // ---------------------------------------------------------------------------
  // Texts made of question blocks.

  /** A question block as written in the document: a numbered header, then lettered options in any order. */
  datatype Block = Block(id: nat, text: string, options: seq<(char, string)>)

  /** Text that survives the patterns unchanged: non-empty, on one line, no whitespace at its ends. */
  predicate IsLineText(t: string) {
    t != [] && IsStripped(t) && '\n' !in t
  }

  predicate WellFormedBlock(b: Block) {
    && IsLineText(b.text)
    && forall p :: p in b.options ==> p.0 in Letters && IsLineText(p.1)
  }

  /** `101. Text` */
  function HeaderLine(b: Block): string {
    NatToDigits(b.id) + ". " + b.text
  }

  /** `A) Text` */
  function OptionLine(p: (char, string)): string {
    [p.0] + ") " + p.1
  }

  function OptionLines(ps: seq<(char, string)>): (lines: seq<string>)
    ensures |lines| == |ps|
  {
    if ps == [] then [] else OptionLines(ps[..|ps| - 1]) + [OptionLine(ps[|ps| - 1])]
  }

  function BlockLines(b: Block): seq<string> {
    [HeaderLine(b)] + OptionLines(b.options)
  }

  function Lines(blocks: seq<Block>): seq<string> {
    if blocks == [] then [] else Lines(blocks[..|blocks| - 1]) + BlockLines(blocks[|blocks| - 1])
  }

  /** The option map after a block's option lines: for each letter, the text of its last line. */
  function LastWrite(ps: seq<(char, string)>): map<char, string> {
    if ps == [] then map[] else LastWrite(ps[..|ps| - 1])[ps[|ps| - 1].0 := ps[|ps| - 1].1]
  }

  /** The records a list of blocks should produce: one per block that names all four letters, in block order. */
  function Expected(blocks: seq<Block>): seq<Question>
    requires forall b :: b in blocks ==> WellFormedBlock(b)
  {
    if blocks == [] then []
    else
      var init, b := blocks[..|blocks| - 1], blocks[|blocks| - 1];
      assert forall x :: x in init ==> x in blocks;
      var opts := LastWrite(b.options);
      Expected(init) + (if Letters <= opts.Keys then [Record(Header(b.id, b.text), opts)] else [])
  }

  lemma {:induction false} LastWriteLetters(ps: seq<(char, string)>)
    requires forall p :: p in ps ==> p.0 in Letters
    ensures LastWrite(ps).Keys <= Letters
  {
    if ps != [] {
      assert forall p :: p in ps[..|ps| - 1] ==> p in ps;
      LastWriteLetters(ps[..|ps| - 1]);
      assert ps[|ps| - 1] in ps;
    }
  }

  /** Where the parts of `ds + ". " + t` sit. */
  lemma HeaderLayout(ds: string, t: string)
    ensures var line := ds + ". " + t; var d := |ds|;
      && |line| == d + 2 + |t| && line[..d] == ds && line[d] == '.' && line[d + 1] == ' '
      && line[d + 2..] == t
      && (forall i :: 0 <= i < d ==> line[i] == ds[i])
      && (forall i :: d + 2 <= i < |line| ==> line[i] == t[i - d - 2])
  {
  }

  /** The question pattern reads a stripped line laid out as digits, ". ", text back as (value of digits, text). */
  lemma HeaderMatch(line: string, d: nat, t: string)
    requires IsParserLine(line) && t != [] && !IsSpace(t[0])
    requires 0 < d && d + 2 + |t| == |line| && DigitsBetween(line, 0, d)
    requires line[d] == '.' && line[d + 1] == ' ' && line[d + 2..] == t
    ensures MatchQuestion(line) == Some(Header(DigitsValue(line[..d]), t))
  {
    assert LooksLikeHeader(line);
    MatchQuestionSpec(line);
    assert SkipDigits(line, 0) == d;
    assert line[d + 2] == t[0];
    assert SkipSpaces(line, d + 1) == d + 2;
  }

  /** A rendered header line is read back as its own id and text. */
  lemma HeaderLineMatches(b: Block)
    requires IsLineText(b.text)
    ensures '\n' !in HeaderLine(b)
    ensures HeaderOf(HeaderLine(b)) == Some(Header(b.id, b.text))
  {
    var ds := NatToDigits(b.id);
    var line := HeaderLine(b);
    HeaderLineShape(ds, b.text);
    HeaderLayout(ds, b.text);
    StripStripped(line);
    HeaderMatch(line, |ds|, b.text);
    DigitsRoundTrip(b.id);
  }

  /** Digits, ". " and a line text make a stripped one-line header whose digit run is `ds`. */
  lemma HeaderLineShape(ds: string, t: string)
    requires |ds| >= 1 && AllDigits(ds) && IsLineText(t)
    ensures var line := ds + ". " + t; IsParserLine(line) && DigitsBetween(line, 0, |ds|)
  {
    var line := ds + ". " + t;
    var d := |ds|;
    HeaderLayout(ds, t);
    assert '\n' !in line by {
      forall i | 0 <= i < |line|
        ensures line[i] != '\n'
      {
        if i < d {
          assert IsDigit(ds[i]);
        } else if i >= d + 2 {
          assert line[i] == t[i - d - 2];
        }
      }
    }
    assert IsStripped(line) by {
      assert IsDigit(line[0]);
      assert line[|line| - 1] == t[|t| - 1];
    }
  }

  /** Where the parts of `[letter] + ") " + t` sit. */
  lemma OptionLayout(letter: char, t: string)
    ensures var line := [letter] + ") " + t;
      && |line| == 3 + |t| && line[0] == letter && line[1] == ')' && line[2] == ' ' && line[3..] == t
      && (forall i :: 3 <= i < |line| ==> line[i] == t[i - 3])
  {
  }

  /** The option pattern reads a stripped line laid out as letter, ") ", text back as (letter, text). */
  lemma OptionMatch(line: string, t: string)
    requires IsParserLine(line) && t != [] && !IsSpace(t[0])
    requires |line| == 3 + |t| && line[0] in Letters && line[1] == ')' && line[2] == ' ' && line[3..] == t
    ensures MatchQuestion(line).None?
    ensures MatchOption(line) == Some((line[0], t))
  {
    assert !IsDigit(line[0]);
    assert SkipDigits(line, 0) == 0;
    MatchOptionSpec(line);
    assert line[3] == t[0];
    assert SkipSpaces(line, 2) == 3;
  }

  /** A rendered option line is no header and is read back as its own letter and text. */
  lemma OptionLineMatches(p: (char, string))
    requires p.0 in Letters && IsLineText(p.1)
    ensures '\n' !in OptionLine(p)
    ensures Strip(OptionLine(p)) == OptionLine(p)
    ensures MatchQuestion(OptionLine(p)).None?
    ensures MatchOption(OptionLine(p)) == Some(p)
  {
    var line := OptionLine(p);
    OptionLayout(p.0, p.1);
    assert '\n' !in line by {
      forall i | 0 <= i < |line|
        ensures line[i] != '\n'
      {
        if i >= 3 {
          assert line[i] == p.1[i - 3];
        }
      }
    }
    assert IsStripped(line) by {
      assert line[|line| - 1] == p.1[|p.1| - 1];
    }
    StripStripped(line);
    OptionMatch(line, p.1);
  }

  lemma {:induction false} OptionLinesNoNewlines(ps: seq<(char, string)>)
    requires forall p :: p in ps ==> p.0 in Letters && IsLineText(p.1)
    ensures NoNewlines(OptionLines(ps))
  {
    if ps != [] {
      var init := ps[..|ps| - 1];
      assert forall p :: p in init ==> p in ps;
      OptionLinesNoNewlines(init);
      assert ps[|ps| - 1] in ps;
      OptionLineMatches(ps[|ps| - 1]);
    }
  }

  /** Under a header, one option line sets its letter's text. */
  lemma OptionStep(st: ParserState, p: (char, string))
    requires ValidState(st) && st.current.Some?
    requires p.0 in Letters && IsLineText(p.1)
    ensures '\n' !in OptionLine(p)
    ensures Step(st, OptionLine(p)) == st.(options := st.options[p.0 := p.1])
  {
    OptionLineMatches(p);
  }

  /** Under a header, option lines only update the option map, the later text of a letter winning. */
  lemma {:induction false} RunOptionLines(st: ParserState, ps: seq<(char, string)>)
    requires ValidState(st) && st.current.Some?
    requires forall p :: p in ps ==> p.0 in Letters && IsLineText(p.1)
    ensures NoNewlines(OptionLines(ps))
    ensures Run(st, OptionLines(ps)) == st.(options := st.options + LastWrite(ps))
  {
    OptionLinesNoNewlines(ps);
    if ps == [] {
      assert st.options + map[] == st.options;
    } else {
      var init, p := ps[..|ps| - 1], ps[|ps| - 1];
      assert forall q :: q in init ==> q in ps;
      assert p in ps;
      RunOptionLines(st, init);
      var lines := OptionLines(ps);
      assert lines[..|lines| - 1] == OptionLines(init);
      assert lines[|lines| - 1] == OptionLine(p);
      var mid := Run(st, OptionLines(init));
      OptionStep(mid, p);
      MergeUpdate(st.options, LastWrite(init), p.0, p.1);
    }
  }

  lemma MergeUpdate<K, V>(m: map<K, V>, n: map<K, V>, k: K, v: V)
    ensures (m + n)[k := v] == m + n[k := v]
  {
  }

  /** Running over a single line is one step. */
  lemma RunOne(st: ParserState, l: string)
    requires ValidState(st) && '\n' !in l
    ensures Run(st, [l]) == Step(st, l)
  {
    assert [l][..0] == [];
  }

  /** A rendered header line starts its block's question with an empty option map. */
  lemma HeaderLineStep(st: ParserState, b: Block)
    requires ValidState(st) && IsLineText(b.text)
    ensures '\n' !in HeaderLine(b)
    ensures Step(st, HeaderLine(b)) == ParserState(Flush(st), Some(Header(b.id, b.text)), map[])
  {
    HeaderLineMatches(b);
  }

  lemma BlockLinesNoNewlines(b: Block)
    requires WellFormedBlock(b)
    ensures NoNewlines(BlockLines(b))
  {
    HeaderLineMatches(b);
    OptionLinesNoNewlines(b.options);
  }

  /** A block moves the parser to its own header, with the option map its lines write, after saving the previous question. */
  lemma BlockRun(st: ParserState, b: Block)
    requires ValidState(st) && WellFormedBlock(b)
    ensures NoNewlines(BlockLines(b))
    ensures Run(st, BlockLines(b)) == ParserState(Flush(st), Some(Header(b.id, b.text)), LastWrite(b.options))
  {
    BlockLinesNoNewlines(b);
    var h, options := HeaderLine(b), OptionLines(b.options);
    RunAppend(st, [h], options);
    HeaderLineStep(st, b);
    RunOne(st, h);
    var st1 := ParserState(Flush(st), Some(Header(b.id, b.text)), map[]);
    RunOptionLines(st1, b.options);
    assert map[] + LastWrite(b.options) == LastWrite(b.options);
  }

  lemma {:induction false} LinesNoNewlines(blocks: seq<Block>)
    requires forall b :: b in blocks ==> WellFormedBlock(b)
    ensures NoNewlines(Lines(blocks))
  {
    if blocks != [] {
      var init, b := blocks[..|blocks| - 1], blocks[|blocks| - 1];
      assert forall x :: x in init ==> x in blocks;
      assert b in blocks;
      LinesNoNewlines(init);
      BlockRun(Init, b);
      assert forall l :: l in Lines(blocks) ==> l in Lines(init) || l in BlockLines(b);
    }
  }

  /** The state inside the last block of `blocks`, all earlier blocks' records saved. */
  function InLastBlock(blocks: seq<Block>): ParserState
    requires blocks != [] && forall b :: b in blocks ==> WellFormedBlock(b)
  {
    var init, b := blocks[..|blocks| - 1], blocks[|blocks| - 1];
    assert forall x :: x in init ==> x in blocks;
    ParserState(Expected(init), Some(Header(b.id, b.text)), LastWrite(b.options))
  }

  /** Saving the last block's question completes the expected records. */
  lemma FlushLastBlock(blocks: seq<Block>)
    requires blocks != [] && forall b :: b in blocks ==> WellFormedBlock(b)
    ensures ValidState(InLastBlock(blocks))
    ensures Flush(InLastBlock(blocks)) == Expected(blocks)
  {
    var b := blocks[|blocks| - 1];
    assert b in blocks;
    LastWriteLetters(b.options);
    FourOptionsAreAllLetters(LastWrite(b.options));
  }

  /** After a non-empty list of blocks, the parser holds all earlier blocks' records and is inside the last block. */
  lemma {:induction false} BlocksRun(blocks: seq<Block>)
    requires blocks != [] && forall b :: b in blocks ==> WellFormedBlock(b)
    ensures NoNewlines(Lines(blocks))
    ensures Run(Init, Lines(blocks)) == InLastBlock(blocks)
  {
    LinesNoNewlines(blocks);
    var init, b := blocks[..|blocks| - 1], blocks[|blocks| - 1];
    assert forall x :: x in init ==> x in blocks;
    assert b in blocks;
    LinesNoNewlines(init);
    RunAppend(Init, Lines(init), BlockLines(b));
    var st := Run(Init, Lines(init));
    BlockRun(st, b);
    if init == [] {
      assert st == Init;
    } else {
      BlocksRun(init);
      FlushLastBlock(init);
    }
  }

  /**
   * A text of well-formed blocks yields one record per block that names all
   * four letters, in block order, with position k holding the last text given
   * for the k-th letter of "ABCD", whatever order the option lines came in;
   * blocks missing a letter are dropped and do not disturb the ones after them.
   */
  lemma BlocksParse(blocks: seq<Block>)
    requires blocks != [] && forall b :: b in blocks ==> WellFormedBlock(b)
    ensures Parse(Join(Lines(blocks), '\n')) == Expected(blocks)
  {
    BlocksRun(blocks);
    FlushLastBlock(blocks);
    assert |Lines(blocks)| >= 1 by {
      assert Lines(blocks) == Lines(blocks[..|blocks| - 1]) + BlockLines(blocks[|blocks| - 1]);
    }
    SplitJoin(Lines(blocks), '\n');
  }

  const SampleOptions: seq<(char, string)> := [('A', "Option A"), ('B', "Option B"), ('C', "Option C"), ('D', "Option D")]

  lemma SampleOptionsWritten()
    ensures forall p :: p in SampleOptions ==> p.0 in Letters && IsLineText(p.1)
    ensures LastWrite(SampleOptions) == map['A' := "Option A", 'B' := "Option B", 'C' := "Option C", 'D' := "Option D"]
  {
    var o := SampleOptions;
    assert o[..3][..2][..1][..0] == [];
    assert o[..3][..2][..1] == [o[0]];
    assert o[..3][..2] == [o[0], o[1]];
    assert o[..3] == [o[0], o[1], o[2]];
    assert LastWrite(o[..3][..2][..1]) == map['A' := "Option A"];
    assert LastWrite(o[..3][..2]) == map['A' := "Option A", 'B' := "Option B"];
    assert LastWrite(o[..3]) == map['A' := "Option A", 'B' := "Option B", 'C' := "Option C"];
    assert forall p :: p in o ==> p.0 in Letters && IsLineText(p.1) by {
      assert IsLineText("Option A") && IsLineText("Option B") && IsLineText("Option C") && IsLineText("Option D");
    }
  }

  const SampleTexts: seq<string> := ["Option A", "Option B", "Option C", "Option D"]

  lemma SampleRecord(id: int, t: string)
    ensures Letters <= LastWrite(SampleOptions).Keys
    ensures Record(Header(id, t), LastWrite(SampleOptions)) == Question(id, t, SampleTexts)
  {
    SampleOptionsWritten();
    var r := Record(Header(id, t), LastWrite(SampleOptions));
    assert LetterOrder[0] == 'A' && LetterOrder[1] == 'B' && LetterOrder[2] == 'C' && LetterOrder[3] == 'D';
    assert r.options[0] == "Option A" && r.options[1] == "Option B";
    assert r.options[2] == "Option C" && r.options[3] == "Option D";
  }

  lemma SampleBlocksWellFormed(b1: Block, b2: Block)
    requires b1 == Block(101, "Question 1?", SampleOptions) && b2 == Block(102, "Question 2?", SampleOptions)
    ensures WellFormedBlock(b1) && WellFormedBlock(b2)
  {
    SampleOptionsWritten();
    assert IsLineText("Question 1?") && IsLineText("Question 2?");
  }

  /** The sample of the API test: two complete blocks give two records, the first numbered 101. */
  lemma TwoQuestionSample()
    ensures Parse(Join(Lines([Block(101, "Question 1?", SampleOptions), Block(102, "Question 2?", SampleOptions)]), '\n'))
      == [Question(101, "Question 1?", SampleTexts), Question(102, "Question 2?", SampleTexts)]
  {
    var b1, b2 := Block(101, "Question 1?", SampleOptions), Block(102, "Question 2?", SampleOptions);
    var blocks := [b1, b2];
    SampleBlocksWellFormed(b1, b2);
    BlocksParse(blocks);
    SampleRecord(101, "Question 1?");
    SampleRecord(102, "Question 2?");
    assert blocks[..1] == [b1];
    assert [b1][..0] == [];
    assert Expected([b1]) == [Question(101, "Question 1?", SampleTexts)];
  }

  // ---------------------------------------------------------------------------
  // The id-range filter.

  lemma {:induction false} FilterKeepsAllInRange(qs: seq<Question>, start: int, end: int)
    requires forall i :: 0 <= i < |qs| ==> InRange(qs[i], start, end)
    ensures FilterByRange(qs, start, end) == qs
  {
    if qs != [] {
      var init := qs[..|qs| - 1];
      FilterKeepsAllInRange(init, start, end);
      assert init + [qs[|qs| - 1]] == qs;
    }
  }

  /** Filtering twice by the same range is filtering once. */
  lemma FilterIdempotent(qs: seq<Question>, start: int, end: int)
    ensures FilterByRange(FilterByRange(qs, start, end), start, end) == FilterByRange(qs, start, end)
  {
    var r := FilterByRange(qs, start, end);
    FilterByRangeSpec(qs, start, end);
    assert forall i :: 0 <= i < |r| ==> r[i] in r;
    FilterKeepsAllInRange(r, start, end);
  }

  /** Records numbered base, base + 1, ... in list order. */
  predicate ConsecutiveIds(qs: seq<Question>, base: int) {
    forall i :: 0 <= i < |qs| ==> qs[i].id == base + i
  }

  function Clamp(x: int, lo: int, hi: int): (r: int)
    requires lo <= hi
    ensures lo <= r <= hi
  {
    if x < lo then lo else if x > hi then hi else x
  }

  /** How the slice bounds for n records relate to those for the first n - 1. */
  lemma ClampStep(n: int, first: int, start: int, end: int)
    requires n >= 1
    ensures var lo, lo' := Clamp(start - first, 0, n), Clamp(start - first, 0, n - 1);
      var hi, hi' := Clamp(end - first + 1, lo, n), Clamp(end - first + 1, lo', n - 1);
      && (start <= first + n - 1 <= end ==> lo == lo' && hi' == n - 1 && hi == n)
      && (!(start <= first + n - 1 <= end) ==> lo' <= hi' && ((lo == lo' && hi == hi') || (lo == hi && lo' == hi')))
  {
  }

  /** A slice that ends before the last element is the same slice of the list without it. */
  lemma SliceOfInit<T>(s: seq<T>, lo: int, hi: int)
    requires 0 <= lo <= hi < |s|
    ensures s[..|s| - 1][lo..hi] == s[lo..hi]
  {
  }

  /** A slice reaching the end is the slice of the list without its last element, plus that element. */
  lemma SliceToEnd<T>(s: seq<T>, lo: int)
    requires 0 <= lo < |s|
    ensures s[..|s| - 1][lo..|s| - 1] + [s[|s| - 1]] == s[lo..|s|]
  {
  }

  /** On consecutively numbered records the filter keeps exactly the slice whose ids lie in the range. */
  lemma {:induction false} FilterConsecutive(qs: seq<Question>, base: int, start: int, end: int)
    requires ConsecutiveIds(qs, base)
    ensures var lo := Clamp(start - base, 0, |qs|);
      FilterByRange(qs, start, end) == qs[lo..Clamp(end - base + 1, lo, |qs|)]
  {
    if qs != [] {
      var n := |qs|;
      var init, last := qs[..n - 1], qs[n - 1];
      assert ConsecutiveIds(init, base);
      FilterConsecutive(init, base, start, end);
      ClampStep(n, base, start, end);
      var lo, lo' := Clamp(start - base, 0, n), Clamp(start - base, 0, n - 1);
      var hi, hi' := Clamp(end - base + 1, lo, n), Clamp(end - base + 1, lo', n - 1);
      if InRange(last, start, end) {
        SliceToEnd(qs, lo);
      } else if lo == hi {
        assert lo' == hi';
      } else {
        SliceOfInit(qs, lo, hi);
      }
    }
  }

  /** Ten records numbered 100..109, filtered to 102..105, give the four records 102, 103, 104, 105. */
  lemma FilterTenConsecutive(qs: seq<Question>)
    requires |qs| == 10 && ConsecutiveIds(qs, 100)
    ensures FilterByRange(qs, 102, 105) == qs[2..6]
    ensures |FilterByRange(qs, 102, 105)| == 4
  {
    FilterConsecutive(qs, 100, 102, 105);
  }

}
