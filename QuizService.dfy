/**
 * The HTTP core of the quiz backend: the in-memory cache of parsed question
 * lists, the upload handler that fills it, and quiz generation, which checks a
 * request in a fixed order and draws the requested number of records.
 */
module QuizService {
  import opened Wrappers
  import opened Text
  import opened QuestionParser

  /** An HTTP error response: status code and the reason behind it. */
  datatype HttpError<C> = HttpError(status: int, cause: C)

  /** What went wrong during an upload; every one of them is answered with status 500. */
  datatype UploadFailure =
    | NotAPdf                    // content type other than "application/pdf"
    | SaveFailed(reason: string) // the file store raised
    | ExtractFailed(reason: string) // text extraction raised

  datatype UploadResponse = UploadResponse(pdfId: string, totalQuestions: int)

  const PdfContentType: string := "application/pdf"

  /** Why a quiz request is refused, in the order the checks run. */
  datatype QuizError =
    | PdfNotFound
    | NotEnoughQuestions(start: int, end: int, found: int, requested: int)

  function Status(e: QuizError): int {
    match e
    case PdfNotFound => 404
    case NotEnoughQuestions(_, _, _, _) => 400
  }

  /**
   * The response detail of a refusal. The not-found text differs from every
   * range message; a range message names the range, then the found and the
   * requested counts.
   */
  function Detail(e: QuizError): (r: string)
    ensures r == "PDF not found" <==> e.PdfNotFound?
    ensures e.NotEnoughQuestions? ==>
      var head := "Not enough questions in range " + IntToString(e.start) + "-" + IntToString(e.end);
      var tail := ". Found " + IntToString(e.found) + ", requested " + IntToString(e.requested);
      |head| + |tail| == |r| && r[..|head|] == head && r[|head|..] == tail
  {
    match e
    case PdfNotFound => "PDF not found"
    case NotEnoughQuestions(start, end, found, requested) =>
      var head := "Not enough questions in range " + IntToString(start) + "-" + IntToString(end);
      var tail := ". Found " + IntToString(found) + ", requested " + IntToString(requested);
      assert head[0] == 'N';
      head + tail
  }

  datatype QuizRequest = QuizRequest(pdfId: string, start: int, end: int, count: int)

  datatype QuestionResponse = QuestionResponse(id: int, question: string, options: seq<string>)

  /**
   * The check chain of quiz generation: an unknown id is refused before any
   * filtering; then a range holding fewer records than requested is refused,
   * reporting the range, the number found and the number requested. On success
   * the result is the filtered list the sample is drawn from.
   */
  function CheckRequest(cache: map<string, seq<Question>>, req: QuizRequest): (r: Result<seq<Question>, QuizError>)
    ensures r.Failure? && r.error == PdfNotFound <==> req.pdfId !in cache
    ensures r.Success? ==> req.pdfId in cache && r.value == FilterByRange(cache[req.pdfId], req.start, req.end)
    ensures r.Success? <==> req.pdfId in cache && req.count <= |FilterByRange(cache[req.pdfId], req.start, req.end)|
    ensures r.Failure? && r.error.NotEnoughQuestions? ==>
      r.error == NotEnoughQuestions(req.start, req.end, |FilterByRange(cache[req.pdfId], req.start, req.end)|, req.count)
      && r.error.found < r.error.requested
  {
    if req.pdfId !in cache then Failure(PdfNotFound)
    else
      var filtered := FilterByRange(cache[req.pdfId], req.start, req.end);
      if |filtered| < req.count then Failure(NotEnoughQuestions(req.start, req.end, |filtered|, req.count))
      else Success(filtered)
  }

  /** `random.sample` draws `count` distinct positions of a list of length `n`; which ones is left open. */
  predicate IsSample(picks: seq<nat>, n: nat, count: int) {
    && |picks| == count
    && (forall i :: 0 <= i < |picks| ==> picks[i] < n)
    && (forall i, j :: 0 <= i < j < |picks| ==> picks[i] != picks[j])
  }

  function Pick<T>(s: seq<T>, picks: seq<nat>): (r: seq<T>)
    requires forall i :: 0 <= i < |picks| ==> picks[i] < |s|
    ensures |r| == |picks|
  {
    seq(|picks|, i requires 0 <= i < |picks| => s[picks[i]])
  }

  /** The response carries each selected record's id, text and options unchanged. */
  function Respond(qs: seq<Question>): (rs: seq<QuestionResponse>)
    ensures |rs| == |qs|
  {
    seq(|qs|, i requires 0 <= i < |qs| => QuestionResponse(qs[i].id, qs[i].question, qs[i].options))
  }

  /** The first `n` positions, in order: one sample of size `n` always exists. */
  function Prefix(n: nat): (picks: seq<nat>)
    ensures IsSample(picks, n, n)
  {
    seq(n, i requires 0 <= i < n => i)
  }

  /** The server's module-level state: the cache of parsed lists, and the files the PDF store holds. */
  class QuizServer {
    var parsedQuestions: map<string, seq<Question>>
    var savedFiles: set<string>

    constructor()
      ensures parsedQuestions == map[] && savedFiles == {}
    {
      parsedQuestions := map[];
      savedFiles := {};
    }

    /**
     * `upload_pdf`. Saving and extraction are outcomes handed in: `save` is the
     * new pdf id or the store's error, `extract` the text of that file or the
     * extractor's error. The cache is written only once parsing is done, so any
     * failure leaves it alone; a file saved before a failure is removed again.
     */
    method UploadPdf(contentType: string, save: Result<string, string>, extract: Result<string, string>)
      returns (r: Result<UploadResponse, HttpError<UploadFailure>>)
      modifies this
      ensures r.Failure? ==> r.error.status == 500 && parsedQuestions == old(parsedQuestions)
      ensures contentType != PdfContentType ==> r == Failure(HttpError(500, NotAPdf)) && savedFiles == old(savedFiles)
      ensures contentType == PdfContentType && save.Failure? ==>
        r == Failure(HttpError(500, SaveFailed(save.error))) && savedFiles == old(savedFiles)
      ensures contentType == PdfContentType && save.Success? && extract.Failure? ==>
        r == Failure(HttpError(500, ExtractFailed(extract.error))) && savedFiles == old(savedFiles) - {save.value}
      ensures contentType == PdfContentType && save.Success? && extract.Success? ==>
        && r == Success(UploadResponse(save.value, |Parse(extract.value)|))
        && parsedQuestions == old(parsedQuestions)[save.value := Parse(extract.value)]
        && savedFiles == old(savedFiles) + {save.value}
    {
      if contentType != PdfContentType {
        return Failure(HttpError(500, NotAPdf));
      }
      if save.Failure? {
        return Failure(HttpError(500, SaveFailed(save.error)));
      }
      var pdfId := save.value;
      savedFiles := savedFiles + {pdfId};
      if extract.Failure? {
        savedFiles := savedFiles - {pdfId};
        return Failure(HttpError(500, ExtractFailed(extract.error)));
      }
      var questions := ParseQuestions(extract.value);
      parsedQuestions := parsedQuestions[pdfId := questions];
      r := Success(UploadResponse(pdfId, |questions|));
    }

    /**
     * `generate_quiz`: runs the check chain, then draws `count` records from
     * distinct positions of the filtered list and answers with copies of them.
     * It reads the cache and writes nothing.
     */
    method GenerateQuiz(req: QuizRequest) returns (r: Result<seq<QuestionResponse>, HttpError<string>>)
      requires req.count >= 0
      ensures var checked := CheckRequest(parsedQuestions, req);
        && (r.Failure? <==> checked.Failure?)
        && (r.Failure? ==> r.error == HttpError(Status(checked.error), Detail(checked.error)))
        && (r.Success? ==>
              && |r.value| == req.count
              && exists picks :: IsSample(picks, |checked.value|, req.count) && r.value == Respond(Pick(checked.value, picks)))
    {
      var checked := CheckRequest(parsedQuestions, req);
      if checked.Failure? {
        return Failure(HttpError(Status(checked.error), Detail(checked.error)));
      }
      var filtered := checked.value;
      assert IsSample(Prefix(req.count), |filtered|, req.count);
      var picks: seq<nat> :| IsSample(picks, |filtered|, req.count);
      assert IsSample(picks, |filtered|, req.count);
      var selected := Pick(filtered, picks);
      r := Success(Respond(selected));
    }
  }

  // ---------------------------------------------------------------------------
  // What a sample of the filtered list is.

  lemma PickAppend<T>(s: seq<T>, a: seq<nat>, b: seq<nat>)
    requires forall i :: 0 <= i < |a + b| ==> (a + b)[i] < |s|
    ensures forall i :: 0 <= i < |a| ==> a[i] < |s|
    ensures forall i :: 0 <= i < |b| ==> b[i] < |s|
    ensures Pick(s, a + b) == Pick(s, a) + Pick(s, b)
  {
    assert forall i :: 0 <= i < |a| ==> a[i] == (a + b)[i];
    assert forall i :: 0 <= i < |b| ==> b[i] == (a + b)[|a| + i];
  }

  /** Taking the k-th pick out of a draw takes one copy of its record out of the drawn multiset. */
  lemma PickRemove<T>(s: seq<T>, picks: seq<nat>, k: nat, rest: seq<nat>)
    requires forall i :: 0 <= i < |picks| ==> picks[i] < |s|
    requires k < |picks| && rest == picks[..k] + picks[k + 1..]
    ensures forall i :: 0 <= i < |rest| ==> rest[i] < |s|
    ensures multiset(Pick(s, picks)) == multiset(Pick(s, rest)) + multiset{s[picks[k]]}
  {
    assert picks == picks[..k] + [picks[k]] + picks[k + 1..];
    PickAppend(s, picks[..k] + [picks[k]], picks[k + 1..]);
    PickAppend(s, picks[..k], [picks[k]]);
    PickAppend(s, picks[..k], picks[k + 1..]);
  }

  /** Picks that stay below |t| read the same records from `t + u` as from `t`. */
  lemma PickPrefix<T>(t: seq<T>, u: seq<T>, picks: seq<nat>)
    requires forall i :: 0 <= i < |picks| ==> picks[i] < |t|
    ensures Pick(t + u, picks) == Pick(t, picks)
  {
  }

  /** Dropping the pick of the last position leaves a sample of the shorter list. */
  lemma DropLastPosition(picks: seq<nat>, n: nat, k: nat)
    requires IsSample(picks, n + 1, |picks|) && k < |picks| && picks[k] == n
    ensures IsSample(picks[..k] + picks[k + 1..], n, |picks| - 1)
  {
    var rest := picks[..k] + picks[k + 1..];
    assert forall i :: 0 <= i < |rest| ==> rest[i] == (if i < k then picks[i] else picks[i + 1]);
  }

  /** Records drawn from distinct positions are a sub-multiset of the list drawn from. */
  lemma {:induction false} SampleIsSubMultiset<T>(s: seq<T>, picks: seq<nat>)
    requires IsSample(picks, |s|, |picks|)
    ensures multiset(Pick(s, picks)) <= multiset(s)
    decreases |s|
  {
    if s != [] {
      var n := |s| - 1;
      var init := s[..n];
      assert s == init + [s[n]];
      if k :| 0 <= k < |picks| && picks[k] == n {
        var rest := picks[..k] + picks[k + 1..];
        DropLastPosition(picks, n, k);
        SampleIsSubMultiset(init, rest);
        PickRemove(s, picks, k, rest);
        PickPrefix(init, [s[n]], rest);
      } else {
        assert IsSample(picks, |init|, |picks|);
        SampleIsSubMultiset(init, picks);
        PickPrefix(init, [s[n]], picks);
      }
    }
  }

  lemma SubMultisetSameSize<T>(a: multiset<T>, b: multiset<T>)
    requires a <= b && |a| == |b|
    ensures a == b
  {
    var d := b - a;
    assert b == a + d;
    assert |d| == 0;
  }

  /**
   * A successful quiz holds `count` records drawn from distinct positions of the
   * filtered list, so each lies in the requested id range and no record appears
   * more often than in the filtered list; when `count` is the filtered list's
   * length, the quiz is a permutation of it.
   */
  lemma SampleProperties(qs: seq<Question>, start: int, end: int, picks: seq<nat>)
    requires IsSample(picks, |FilterByRange(qs, start, end)|, |picks|)
    ensures var filtered := FilterByRange(qs, start, end); var selected := Pick(filtered, picks);
      && multiset(selected) <= multiset(filtered)
      && (forall q :: q in selected ==> q in qs && InRange(q, start, end))
      && (|picks| == |filtered| ==> multiset(selected) == multiset(filtered))
  {
    var filtered := FilterByRange(qs, start, end);
    var selected := Pick(filtered, picks);
    FilterByRangeSpec(qs, start, end);
    SampleIsSubMultiset(filtered, picks);
    forall q | q in selected
      ensures q in qs && InRange(q, start, end)
    {
      assert q in multiset(selected);
    }
    if |picks| == |filtered| {
      SubMultisetSameSize(multiset(selected), multiset(filtered));
    }
  }

  /** Every record of a successful quiz copies a record of the cached list whose id lies in [start, end]. */
  lemma QuizIdsInRange(cache: map<string, seq<Question>>, req: QuizRequest, picks: seq<nat>)
    requires CheckRequest(cache, req).Success?
    requires IsSample(picks, |CheckRequest(cache, req).value|, req.count)
    ensures forall r :: r in Respond(Pick(CheckRequest(cache, req).value, picks)) ==>
      exists q :: q in cache[req.pdfId] && req.start <= q.id <= req.end && r == QuestionResponse(q.id, q.question, q.options)
  {
    var selected := Pick(CheckRequest(cache, req).value, picks);
    SampleProperties(cache[req.pdfId], req.start, req.end, picks);
    forall r | r in Respond(selected)
      ensures exists q :: q in cache[req.pdfId] && req.start <= q.id <= req.end && r == QuestionResponse(q.id, q.question, q.options)
    {
      var i :| 0 <= i < |selected| && Respond(selected)[i] == r;
      assert selected[i] in selected;
    }
  }
}
