/**
 * The two POST handlers of gpt.py and the process-wide cache they share:
 * `init_contexts` rebuilds the basename-to-text dict, `handle_query` answers
 * a question from it. The generative model is an oracle: `llm(n, p)` is its
 * reply to the call numbered `n` (from 0) within one query, whose prompt is
 * `p`, None standing for an exception raised by that call. Every call starts
 * a fresh chat session, so the reply depends on nothing else; `calls`
 * records every prompt sent, in order.
 */
module Api {
  import opened Wrappers
  import opened Classifier
  import opened OrderedMaps
  import opened Extractor
  import opened Synthesizer
  import opened Seqs

  const MissingQuestion: string := "Missing \"question\" parameter"
  const NotInitialized: string := "PDF contexts not initialized. Call /api/init first."
  const QueryFailed: string := "An error occurred during query"
  const NoPdfFiles: string := "No PDF files found in the specified folder"
  const Initialized: string := "PDF contexts initialized/re-initialized successfully"
  const InitFailed: string := "An error occurred during PDF context initialization"

  /** The model's reply to call `n` with a given prompt; None when the call raises. */
  type Oracle = (nat, string) -> Option<string>

  /** A JSON reply: `{"answer": ...}` or `{"message": ...}` with 200, or `{"error": ...}` with its status. */
  datatype Reply = Answer(answer: string) | Message(message: string) | Failure(status: nat, error: string)
  {
    function Status(): nat
    {
      match this
      case Answer(_) => 200
      case Message(_) => 200
      case Failure(status, _) => status
    }
  }

  /** The JSON body of a query: `question` (None when absent or null) and `files` (empty when absent). */
  datatype QueryRequest = QueryRequest(question: Option<string>, files: seq<string>)

  /** A handled query: the reply and the prompts sent to the model, in order. */
  datatype QueryRun = QueryRun(reply: Reply, calls: seq<string>)

  /** The fan-out so far: the answers collected (None once a call failed) and the prompts sent. */
  datatype Consultation = Consultation(answers: Option<seq<string>>, calls: seq<string>)

  // ---------------------------------------------------------------------
  // The decision procedure of handle_query
  // ---------------------------------------------------------------------

  /** `filename in requested_files or not requested_files` */
  predicate IsRequested(name: string, files: seq<string>)
  {
    name in files || files == []
  }

  /** The documents queried, in the dict's order. */
  function Selected(entries: seq<Entry>, files: seq<string>): seq<Entry>
  {
    if entries == [] then []
    else
      var last := entries[|entries| - 1];
      Selected(entries[..|entries| - 1], files) + if IsRequested(last.name, files) then [last] else []
  }

  /** One `query_gemini` call per document, in order; the first exception stops the loop. */
  function Consult(docs: seq<Entry>, question: string, llm: Oracle): Consultation
  {
    if docs == [] then Consultation(Some([]), [])
    else
      var prev := Consult(docs[..|docs| - 1], question, llm);
      if prev.answers.None? then prev
      else
        var prompt := QueryPrompt(docs[|docs| - 1].text, question);
        match llm(|prev.calls|, prompt)
        case None => Consultation(None, prev.calls + [prompt])
        case Some(a) => Consultation(Some(prev.answers.value + [a]), prev.calls + [prompt])
  }

  /**
   * `handle_query` on a JSON body, with `contexts` as the cache and `table` as
   * the canned answers: the handler uses `GeneralResponses`, as written; the
   * corrected `CannedResponses` gives the intended behaviour.
   */
  function Query(table: map<string, string>, contexts: seq<Entry>, request: QueryRequest, llm: Oracle): QueryRun
  {
    if request.question.None? || request.question.value == "" then
      QueryRun(Failure(400, MissingQuestion), [])
    else
      var question := request.question.value;
      var processed := Normalize(question);
      var canned := Classify(table, processed);
      if canned.Some? then
        QueryRun(Answer(canned.value), [])
      else if contexts == [] then
        QueryRun(Failure(400, NotInitialized), [])
      else
        var fanOut := Consult(Selected(contexts, request.files), question, llm);
        if fanOut.answers.None? then
          QueryRun(Failure(500, QueryFailed), fanOut.calls)
        else
          var prompt := CombinedPrompt(fanOut.answers.value, question);
          match llm(|fanOut.calls|, prompt)
          case None => QueryRun(Failure(500, QueryFailed), fanOut.calls + [prompt])
          case Some(final) => QueryRun(Answer(final), fanOut.calls + [prompt])
  }

  // ---------------------------------------------------------------------
  // Reference definitions for the fan-out
  // ---------------------------------------------------------------------

  /** The `query_gemini` prompt for each document, in order. */
  function Prompts(docs: seq<Entry>, question: string): seq<string>
  {
    seq(|docs|, i requires 0 <= i < |docs| => QueryPrompt(docs[i].text, question))
  }

  function ReplyText(r: Option<string>): string
  {
    match r
    case Some(t) => t
    case None => ""
  }

  /** The model's answer for each document, in order. */
  function AnswersOf(docs: seq<Entry>, question: string, llm: Oracle): seq<string>
  {
    seq(|docs|, i requires 0 <= i < |docs| => ReplyText(llm(i, QueryPrompt(docs[i].text, question))))
  }

  predicate AllAnswered(docs: seq<Entry>, question: string, llm: Oracle)
  {
    forall i :: 0 <= i < |docs| ==> llm(i, QueryPrompt(docs[i].text, question)).Some?
  }

  // ---------------------------------------------------------------------
  // Properties of the selection and the fan-out
  // ---------------------------------------------------------------------

  /** A document is queried exactly when it is cached and requested. */
  lemma {:induction false} SelectedMembers(entries: seq<Entry>, files: seq<string>, e: Entry)
    ensures e in Selected(entries, files) <==> e in entries && IsRequested(e.name, files)
  {
    if entries != [] {
      var init, last := entries[..|entries| - 1], entries[|entries| - 1];
      SelectedMembers(init, files, e);
      assert entries == init + [last];
    }
  }

  /** Without a file list every document is queried, in order. */
  lemma {:induction false} SelectedAll(entries: seq<Entry>)
    ensures Selected(entries, []) == entries
  {
    if entries != [] {
      SelectedAll(entries[..|entries| - 1]);
      assert entries == entries[..|entries| - 1] + [entries[|entries| - 1]];
    }
  }

  /** In a dict the documents queried have distinct names, so each is queried once. */
  lemma {:induction false} SelectedUnique(entries: seq<Entry>, files: seq<string>)
    requires UniqueNames(entries)
    ensures UniqueNames(Selected(entries, files))
  {
    if entries != [] {
      var init, last := entries[..|entries| - 1], entries[|entries| - 1];
      assert UniqueNames(init) by {
        forall i, j | 0 <= i < j < |init| ensures Names(init)[i] != Names(init)[j] {
          assert Names(init)[i] == Names(entries)[i] && Names(init)[j] == Names(entries)[j];
        }
      }
      SelectedUnique(init, files);
      var s := Selected(init, files);
      if IsRequested(last.name, files) {
        var r := s + [last];
        forall i, j | 0 <= i < j < |r| ensures Names(r)[i] != Names(r)[j] {
          if j < |s| {
            assert Names(r)[i] == Names(s)[i] && Names(r)[j] == Names(s)[j];
          } else {
            SelectedMembers(init, files, s[i]);
            var k :| 0 <= k < |init| && init[k] == s[i];
            assert Names(entries)[k] != Names(entries)[|entries| - 1];
          }
        }
      } else {
        assert s + [] == s;
      }
    }
  }

  lemma SelectedSnoc(entries: seq<Entry>, e: Entry, files: seq<string>)
    ensures Selected(entries + [e], files) == Selected(entries, files) + if IsRequested(e.name, files) then [e] else []
  {
    assert (entries + [e])[..|entries|] == entries;
  }

  lemma SelectedConcat(a: seq<Entry>, b: seq<Entry>, files: seq<string>)
    ensures Selected(a + b, files) == Selected(a, files) + Selected(b, files)
    decreases |b|
  {
    if b == [] {
      assert a + b == a;
    } else {
      var b', x := b[..|b| - 1], b[|b| - 1];
      SnocSplit(a, b);
      Snoc(b);
      SelectedSnoc(a + b', x, files);
      SelectedSnoc(b', x, files);
      SelectedConcat(a, b', files);
      Assoc(Selected(a, files), Selected(b', files), if IsRequested(x.name, files) then [x] else []);
    }
  }

  lemma ConsultSnoc(docs: seq<Entry>, d: Entry, question: string, llm: Oracle)
    ensures Consult(docs + [d], question, llm) ==
      var prev := Consult(docs, question, llm);
      if prev.answers.None? then prev
      else
        var prompt := QueryPrompt(d.text, question);
        match llm(|prev.calls|, prompt)
        case None => Consultation(None, prev.calls + [prompt])
        case Some(a) => Consultation(Some(prev.answers.value + [a]), prev.calls + [prompt])
  {
    assert (docs + [d])[..|docs|] == docs;
  }

  /** Once a call has failed, later documents are not queried. */
  lemma {:induction false} ConsultStaysFailed(a: seq<Entry>, b: seq<Entry>, question: string, llm: Oracle)
    requires Consult(a, question, llm).answers.None?
    ensures Consult(a + b, question, llm) == Consult(a, question, llm)
    decreases |b|
  {
    if b != [] {
      var b', x := b[..|b| - 1], b[|b| - 1];
      SnocSplit(a, b);
      ConsultStaysFailed(a, b', question, llm);
      ConsultSnoc(a + b', x, question, llm);
    } else {
      assert a + b == a;
    }
  }

  /** While no call has failed, one call has been made per document and one answer kept per call. */
  lemma {:induction false} ConsultCounts(docs: seq<Entry>, question: string, llm: Oracle)
    requires Consult(docs, question, llm).answers.Some?
    ensures |Consult(docs, question, llm).calls| == |Consult(docs, question, llm).answers.value| == |docs|
  {
    if docs != [] {
      ConsultCounts(docs[..|docs| - 1], question, llm);
    }
  }

  /**
   * When every call succeeds, each document is queried once, in order, and
   * its answer kept in that order.
   */
  lemma {:induction false} ConsultAllAnswered(docs: seq<Entry>, question: string, llm: Oracle)
    requires AllAnswered(docs, question, llm)
    ensures Consult(docs, question, llm) == Consultation(Some(AnswersOf(docs, question, llm)), Prompts(docs, question))
  {
    if docs != [] {
      var init, d := docs[..|docs| - 1], docs[|docs| - 1];
      Snoc(docs);
      assert AllAnswered(init, question, llm) by {
        forall i | 0 <= i < |init| ensures llm(i, QueryPrompt(init[i].text, question)).Some? {
          assert init[i] == docs[i];
        }
      }
      ConsultAllAnswered(init, question, llm);
      ConsultSnoc(init, d, question, llm);
      var prompt := QueryPrompt(d.text, question);
      assert |Prompts(init, question)| == |init|;
      assert llm(|init|, prompt).Some?;
      PromptsSnoc(docs, question);
      AnswersSnoc(docs, question, llm);
      var a := llm(|init|, prompt).value;
      assert Consult(init + [d], question, llm) == Consultation(Some(AnswersOf(init, question, llm) + [a]), Prompts(init, question) + [prompt]);
      assert AnswersOf(docs, question, llm) == AnswersOf(init, question, llm) + [a];
    } else {
      assert AnswersOf(docs, question, llm) == [] && Prompts(docs, question) == [];
    }
  }

  lemma PromptsSnoc(docs: seq<Entry>, question: string)
    requires docs != []
    ensures Prompts(docs, question) == Prompts(docs[..|docs| - 1], question) + [QueryPrompt(docs[|docs| - 1].text, question)]
  {
  }

  lemma AnswersSnoc(docs: seq<Entry>, question: string, llm: Oracle)
    requires docs != []
    ensures AnswersOf(docs, question, llm) ==
      AnswersOf(docs[..|docs| - 1], question, llm) + [ReplyText(llm(|docs| - 1, QueryPrompt(docs[|docs| - 1].text, question)))]
  {
  }

  /**
   * When call `k` (for document `k`) is the first to fail, documents 0..k are
   * queried, in order, and no later one; no answers are kept.
   */
  lemma ConsultFirstFailure(docs: seq<Entry>, question: string, llm: Oracle, k: nat)
    requires k < |docs| && AllAnswered(docs[..k], question, llm)
    requires llm(k, QueryPrompt(docs[k].text, question)).None?
    ensures Consult(docs, question, llm) == Consultation(None, Prompts(docs[..k + 1], question))
  {
    var before, upto := docs[..k], docs[..k + 1];
    assert upto[..k] == before && upto[k] == docs[k];
    ConsultAllAnswered(before, question, llm);
    Snoc(upto);
    ConsultSnoc(before, docs[k], question, llm);
    PromptsSnoc(upto, question);
    ConsultStaysFailed(upto, docs[k + 1..], question, llm);
    assert upto + docs[k + 1..] == docs;
  }

  /** A failed fan-out has sent at least one prompt. */
  lemma {:induction false} ConsultFailureCalled(docs: seq<Entry>, question: string, llm: Oracle)
    requires Consult(docs, question, llm).answers.None?
    ensures |Consult(docs, question, llm).calls| > 0
  {
    if docs != [] {
      var init := docs[..|docs| - 1];
      if Consult(init, question, llm).answers.None? {
        ConsultFailureCalled(init, question, llm);
      }
    }
  }

  // ---------------------------------------------------------------------
  // Properties of handle_query
  // ---------------------------------------------------------------------

  /**
   * The early exits, checked in this order: a missing or empty question is a
   * 400; a canned phrase is answered, whatever the cache holds; an empty cache
   * is a 400. None of them calls the model.
   */
  lemma QueryShortCircuits(table: map<string, string>, contexts: seq<Entry>, request: QueryRequest, llm: Oracle)
    ensures request.question.None? || request.question == Some("") ==>
      Query(table, contexts, request, llm) == QueryRun(Failure(400, MissingQuestion), [])
    ensures request.question.Some? && request.question.value != "" && Normalize(request.question.value) in table ==>
      Query(table, contexts, request, llm) == QueryRun(Answer(table[Normalize(request.question.value)]), [])
    ensures request.question.Some? && request.question.value != "" && Normalize(request.question.value) !in table && contexts == [] ==>
      Query(table, contexts, request, llm) == QueryRun(Failure(400, NotInitialized), [])
  {
  }

  /** The model is called not at all exactly when one of the early exits applies. */
  lemma QueryCallsModelUnlessShortCircuit(table: map<string, string>, contexts: seq<Entry>, request: QueryRequest, llm: Oracle)
    ensures Query(table, contexts, request, llm).calls == [] <==>
      (request.question.None? || request.question.value == ""
       || Normalize(request.question.value) in table || contexts == [])
  {
    if request.question.Some? && request.question.value != "" {
      var question := request.question.value;
      var fanOut := Consult(Selected(contexts, request.files), question, llm);
      if fanOut.answers.None? {
        ConsultFailureCalled(Selected(contexts, request.files), question, llm);
      }
    }
  }

  /**
   * On a question that goes to the documents and whose per-document calls all
   * succeed: each selected document is queried once, in the dict's order, with
   * the question as the user typed it; then `combine_answers` is called once,
   * last, on their answers in that order, and its reply (or its failure) is
   * the reply.
   */
  lemma QueryFansOutThenCombines(table: map<string, string>, contexts: seq<Entry>, request: QueryRequest, llm: Oracle)
    requires request.question.Some? && request.question.value != ""
    requires Normalize(request.question.value) !in table && contexts != []
    requires AllAnswered(Selected(contexts, request.files), request.question.value, llm)
    ensures var question := request.question.value;
      var docs := Selected(contexts, request.files);
      var prompt := CombinedPrompt(AnswersOf(docs, question, llm), question);
      var final := llm(|docs|, prompt);
      Query(table, contexts, request, llm) ==
        QueryRun(if final.Some? then Answer(final.value) else Failure(500, QueryFailed),
                 Prompts(docs, question) + [prompt])
  {
    ConsultAllAnswered(Selected(contexts, request.files), request.question.value, llm);
  }

  /**
   * When the call for selected document `k` is the first to fail, the reply is
   * the generic 500, documents 0..k have been queried and `combine_answers` is
   * never called.
   */
  lemma QueryFailsOnFirstFailure(table: map<string, string>, contexts: seq<Entry>, request: QueryRequest, llm: Oracle, k: nat)
    requires request.question.Some? && request.question.value != ""
    requires Normalize(request.question.value) !in table && contexts != []
    requires var docs := Selected(contexts, request.files);
      k < |docs| && AllAnswered(docs[..k], request.question.value, llm)
      && llm(k, QueryPrompt(docs[k].text, request.question.value)).None?
    ensures Query(table, contexts, request, llm) ==
      QueryRun(Failure(500, QueryFailed), Prompts(Selected(contexts, request.files)[..k + 1], request.question.value))
  {
    ConsultFirstFailure(Selected(contexts, request.files), request.question.value, llm, k);
  }

  /** `{"question": "hi"}` gets the canned greeting with no model call. */
  lemma QueryHiExample(contexts: seq<Entry>, files: seq<string>, llm: Oracle)
    ensures Query(GeneralResponses, contexts, QueryRequest(Some("hi"), files), llm) ==
      QueryRun(Answer("Hi there! How can I help you?"), [])
  {
    GeneralKeyReachable("hi");
  }

  /**
   * As written, every canned phrase but "what's your name", typed in any
   * letter case, gets its answer with no model call, whatever the cache holds.
   */
  lemma QueryCannedAnyCase(k: string, question: string, contexts: seq<Entry>, files: seq<string>, llm: Oracle)
    requires k in GeneralResponses && k != "what's your name"
    requires |question| == |k| && forall i :: 0 <= i < |k| ==> Lower(question[i]) == k[i]
    ensures Query(GeneralResponses, contexts, QueryRequest(Some(question), files), llm) ==
      QueryRun(Answer(GeneralResponses[k]), [])
  {
    GeneralKeyReachable(k);
    CannedKeyAnyCase(GeneralResponses, k, question);
  }

  /** As written, every canned phrase but "what's your name", followed by punctuation, gets its answer. */
  lemma QueryCannedPunctuated(k: string, c: char, contexts: seq<Entry>, files: seq<string>, llm: Oracle)
    requires k in GeneralResponses && k != "what's your name" && !Kept(Lower(c))
    ensures Query(GeneralResponses, contexts, QueryRequest(Some(k + [c]), files), llm) ==
      QueryRun(Answer(GeneralResponses[k]), [])
  {
    GeneralKeyReachable(k);
    CannedKeyPunctuated(GeneralResponses, k, c);
  }

  /** `handle_query` answers 200 exactly with an answer or a message, and otherwise 400 or 500. */
  lemma QueryStatuses(table: map<string, string>, contexts: seq<Entry>, request: QueryRequest, llm: Oracle)
    ensures var reply := Query(table, contexts, request, llm).reply;
      reply.Status() in {200, 400, 500} && (reply.Status() == 200 <==> reply.Answer?)
      && (reply.Status() == 400 <==> reply.Failure? && reply.error in {MissingQuestion, NotInitialized})
  {
  }

  /**
   * As written, "What's your name?" is handled as though there were no canned
   * answers at all: it goes to the documents, or is the "not initialized" 400
   * when the cache is empty.
   */
  lemma QueryNameAsWritten(contexts: seq<Entry>, files: seq<string>, llm: Oracle)
    ensures var request := QueryRequest(Some("What's your name?"), files);
      Query(GeneralResponses, contexts, request, llm) == Query(map[], contexts, request, llm)
      && (contexts == [] ==> Query(GeneralResponses, contexts, request, llm) == QueryRun(Failure(400, NotInitialized), []))
      && (contexts != [] ==> Query(GeneralResponses, contexts, request, llm).calls != [])
  {
    var request := QueryRequest(Some("What's your name?"), files);
    NameQuestionNormal(request.question.value);
    NameKeyAbsent(Normalize(request.question.value));
    QueryCallsModelUnlessShortCircuit(GeneralResponses, contexts, request, llm);
  }

  /** With the corrected table, "What's your name?" gets its canned answer and no model call. */
  lemma QueryNameCorrected(contexts: seq<Entry>, files: seq<string>, llm: Oracle)
    ensures Query(CannedResponses, contexts, QueryRequest(Some("What's your name?"), files), llm) ==
      QueryRun(Answer(NameAnswer), [])
  {
    NameQuestionNormal("What's your name?");
    NameKeyAbsent(Normalize("What's your name?"));
  }

  lemma FanOutStep(entries: seq<Entry>, i: nat, files: seq<string>, question: string, llm: Oracle,
                   collected: seq<string>, calls: seq<string>)
    requires i < |entries|
    requires Consult(Selected(entries[..i], files), question, llm) == Consultation(Some(collected), calls)
    ensures var prompt := QueryPrompt(entries[i].text, question);
      var reply := llm(|calls|, prompt);
      Consult(Selected(entries[..i + 1], files), question, llm) ==
        if !IsRequested(entries[i].name, files) then Consultation(Some(collected), calls)
        else if reply.None? then Consultation(None, calls + [prompt])
        else Consultation(Some(collected + [reply.value]), calls + [prompt])
  {
    assert entries[..i + 1] == entries[..i] + [entries[i]];
    SelectedSnoc(entries[..i], entries[i], files);
    if IsRequested(entries[i].name, files) {
      assert Selected(entries[..i + 1], files) == Selected(entries[..i], files) + [entries[i]];
      ConsultSnoc(Selected(entries[..i], files), entries[i], question, llm);
    } else {
      assert Selected(entries[..i], files) + [] == Selected(entries[..i], files);
    }
  }

  lemma FanOutStop(entries: seq<Entry>, i: nat, files: seq<string>, question: string, llm: Oracle)
    requires i < |entries| && Consult(Selected(entries[..i + 1], files), question, llm).answers.None?
    ensures Consult(Selected(entries, files), question, llm) == Consult(Selected(entries[..i + 1], files), question, llm)
  {
    SelectedConcat(entries[..i + 1], entries[i + 1..], files);
    assert entries[..i + 1] + entries[i + 1..] == entries;
    ConsultStaysFailed(Selected(entries[..i + 1], files), Selected(entries[i + 1..], files), question, llm);
  }

  /**
   * The loop of `handle_query` over `pdf_contexts.items()`: query each
   * requested document in turn, stopping at the first exception.
   */
  method FanOut(entries: seq<Entry>, files: seq<string>, question: string, llm: Oracle)
    returns (answers: Option<seq<string>>, calls: seq<string>)
    ensures Consultation(answers, calls) == Consult(Selected(entries, files), question, llm)
  {
    var collected: seq<string> := [];
    calls := [];
    var i := 0;
    while i < |entries|
      invariant 0 <= i <= |entries|
      invariant Consult(Selected(entries[..i], files), question, llm) == Consultation(Some(collected), calls)
    {
      FanOutStep(entries, i, files, question, llm, collected, calls);
      var entry := entries[i];
      if IsRequested(entry.name, files) {
        var prompt := QueryPrompt(entry.text, question);
        var answer := llm(|calls|, prompt);
        calls := calls + [prompt];
        if answer.None? {
          FanOutStop(entries, i, files, question, llm);
          return None, calls;
        }
        collected := collected + [answer.value];
      }
      i := i + 1;
    }
    assert entries[..i] == entries;
    answers := Some(collected);
  }

  // ---------------------------------------------------------------------
  // The service state and the two handlers
  // ---------------------------------------------------------------------

  /** The Flask app with its global `pdf_contexts`. */
  class Server {
    var contexts: seq<Entry>

    /** `pdf_contexts` is a dict: its keys are distinct. */
    ghost predicate Valid()
      reads this
    {
      UniqueNames(contexts)
    }

    /**
     * `pdf_contexts = load_or_create_contexts()`: the saved dict when one was
     * loaded, otherwise a fresh extraction of the folder's files.
     */
    constructor (saved: Option<seq<Entry>>, pdfFiles: seq<PdfSource>)
      requires saved.Some? ==> UniqueNames(saved.value)
      ensures Valid()
      ensures contexts == if saved.Some? then saved.value else Extracted(pdfFiles)
    {
      if saved.Some? {
        contexts := saved.value;
      } else {
        var extracted := ExtractPdfContent(pdfFiles);
        ExtractedNames(pdfFiles);
        contexts := extracted;
      }
    }

    /**
     * `init_contexts`: with no files, a "no files" message and the cache kept;
     * otherwise a fresh extraction, which replaces the cache wholesale once it
     * has been written to disk (`persisted`); a failed write is the generic 500
     * and keeps the old cache.
     */
    method InitContexts(pdfFiles: seq<PdfSource>, persisted: bool) returns (reply: Reply)
      requires Valid()
      modifies this
      ensures Valid()
      ensures pdfFiles == [] ==> reply == Message(NoPdfFiles) && contexts == old(contexts)
      ensures pdfFiles != [] && persisted ==> reply == Message(Initialized) && contexts == Extracted(pdfFiles)
      ensures pdfFiles != [] && !persisted ==> reply == Failure(500, InitFailed) && contexts == old(contexts)
    {
      if pdfFiles == [] {
        return Message(NoPdfFiles);
      }
      var rebuilt := ExtractPdfContent(pdfFiles);
      if !persisted {
        return Failure(500, InitFailed);
      }
      ExtractedNames(pdfFiles);
      contexts := rebuilt;
      reply := Message(Initialized);
    }

    /** `handle_query`, looking questions up in `general_responses` as written. */
    method HandleQuery(request: QueryRequest, llm: Oracle) returns (reply: Reply, calls: seq<string>)
      requires Valid()
      ensures QueryRun(reply, calls) == Query(GeneralResponses, contexts, request, llm)
    {
      if request.question.None? || request.question.value == "" {
        return Failure(400, MissingQuestion), [];
      }
      var question := request.question.value;
      var processed := Normalize(question);
      if processed in GeneralResponses {
        return Answer(GeneralResponses[processed]), [];
      }
      if contexts == [] {
        return Failure(400, NotInitialized), [];
      }
      var answers;
      answers, calls := FanOut(contexts, request.files, question, llm);
      if answers.None? {
        return Failure(500, QueryFailed), calls;
      }
      var prompt := BuildCombinedPrompt(answers.value, question);
      var final := llm(|calls|, prompt);
      calls := calls + [prompt];
      if final.None? {
        return Failure(500, QueryFailed), calls;
      }
      reply := Answer(final.value);
    }
  }
}
