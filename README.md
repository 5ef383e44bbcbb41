# bslgpt question service — a Dafny model

bslgpt is a small Flask service that answers questions about a folder of PDF
documents with a generative model. Its logic is all in `gpt.py`:

- `extract_pdf_content` reads every PDF page by page into a dict keyed by file basename.
- `init_contexts` (`POST /api/init`) rebuilds that dict and caches it.
- `handle_query` (`POST /api/query`) works through a fixed sequence of steps:
  - it normalises the question with `preprocess_question`;
  - it answers a few greetings from the `general_responses` table;
  - otherwise it asks the model about each selected document with `query_gemini`;
  - finally it asks the model once more, with `combine_answers`, for one answer built from the per-document answers.

The model is split into modules:

- `Classifier` (classifier.dfy) covers `preprocess_question` and the canned-answer lookup. These are pure functions with lemmas.
- `OrderedMaps` (ordered_maps.dfy) models a Python dict as a sequence of entries with distinct names, kept in insertion order. `d[k] = v` updates an existing key where it stands and appends a new one.
- `Extractor` (extractor.dfy) covers `extract_pdf_content`:
  - a specification function `Extracted`;
  - the method `ExtractPdfContent`, whose two nested loops follow the source and which is proved equal to `Extracted`;
  - lemmas on `Extracted`.
- `Synthesizer` (synthesizer.dfy) holds the prompt texts of `query_gemini` and `combine_answers`. The loop of `combine_answers` is the method `BuildCombinedPrompt`.
- `Api` (api.dfy) holds the decision procedure of `handle_query`, as the function `Query`, and its lemmas. It also defines the class `Server`:
  - the field `contexts` is the global `pdf_contexts`;
  - the constructor models the start-up load;
  - `InitContexts` models `init_contexts`;
  - `HandleQuery` models `handle_query`, looking questions up in `general_responses` as written. Its loop is the method `FanOut`.
- `Wrappers` (wrappers.dfy) and `Seqs` (seqs.dfy) hold `Option` and three facts about sequence concatenation.

`Query` takes the canned-answer table as a parameter. With `GeneralResponses` it is the handler as written. With the corrected `CannedResponses` it is the intended behaviour (see Findings). `QueryShortCircuits`, `QueryCallsModelUnlessShortCircuit`, `QueryFansOutThenCombines`, `QueryFailsOnFirstFailure` and `QueryStatuses` hold for every table. The other `Query` lemmas name the table they are about: `QueryHiExample`, `QueryCannedAnyCase`, `QueryCannedPunctuated` and `QueryNameAsWritten` are about `GeneralResponses`, and `QueryNameCorrected` is about `CannedResponses`.

The outside world is modelled as parameters.

A PDF file is a `PdfSource` with three parts:
- its basename;
- what `page.extract_text()` returned for each page read (an `Option<string>`);
- the message of the exception that ended the read, if one did.

The generative model is an `Oracle`:
- `llm(n, p)` is the reply to call number `n` of the request, whose prompt is `p`; `None` stands for an exception.
- Every call opens a fresh chat session, so the reply depends on nothing else.
- Because the oracle takes a call number, two calls with the same prompt may get different replies.

A handled query is a `QueryRun`: the reply and the list of prompts sent, in order. "Which model calls happen, on which documents, in which order" is therefore a statement about that list.

## Model

| member | source | states |
|---|---|---|
| Classifier.NormalizeAlphabet | gpt.py:106-114 | a normalised question holds only lower-case ASCII letters, digits and the characters `\s` matches |
| Classifier.NormalizeIgnoresCase | gpt.py:108 | two questions equal up to ASCII letter case normalise alike |
| Classifier.NormalizeIgnoresStripped | gpt.py:110 | inserting a character outside `[a-zA-Z0-9\s]` anywhere does not change the normal form |
| Classifier.NormalizeExpandsAbbreviations | gpt.py:112-113 | no `bsl` and no `bsp` is left after normalisation, including any that the `bsl` rewrite or the stripping could have formed |
| Classifier.NormalizeFix | gpt.py:106-114 | text already in the alphabet and free of `bsl`/`bsp` is its own normal form |
| Classifier.NormalizeIdempotent | gpt.py:106-114 | normalising twice gives the same result as normalising once |
| Classifier.ReplaceAllAvoids | gpt.py:112-113 | `str.replace` leaves no occurrence of the replaced three-letter pattern (or of one absent before) when the replacement neither contains nor creates one |
| Classifier.ReplaceAllFix | gpt.py:112-113 | `str.replace` leaves text without an occurrence unchanged |
| Classifier.ExpansionFacts | gpt.py:112-113 | `bokaro steel plant` is in the normal alphabet and contains neither abbreviation |
| Classifier.ApostropheKeyUnreachable | gpt.py:98-110 | the table as written has the key "what's your name", and no question normalises to it |
| Classifier.CannedKeyReachable | gpt.py:142-146 | every key of the corrected table is its own normal form, so typing it gets its canned answer |
| Classifier.CannedCoversGeneral | gpt.py:94-103 | each phrase of the written table, once normalised, is a key of the corrected table with the same answer |
| Classifier.SharedKeyCovered | gpt.py:94-103 | the two tables agree on every key except the apostrophe one |
| Classifier.ApostropheKeyNormal | gpt.py:106-114 | "what's your name" normalises to "whats your name" |
| Classifier.CannedKeyAnyCase | gpt.py:142-146 | for any table, a key that is its own normal form, typed in any letter case, is looked up to its answer |
| Classifier.CannedKeyPunctuated | gpt.py:142-146 | for any table, a key that is its own normal form, followed by a character the filter removes, is looked up to its answer |
| Classifier.HelloExample | gpt.py:142-146 | `"Hello!"` and `"hello"` both normalise to `"hello"`, which both tables answer "Hello! How can I assist you today?" |
| Classifier.GeneralKeyReachable | gpt.py:94-110 | every key of `general_responses` but "what's your name" is its own normal form |
| OrderedMaps.Put | gpt.py:49-52 | dict assignment: the keys stay in place when the name is present, otherwise the name is appended last; the name maps to the new text; every other name maps as before |
| OrderedMaps.PutUnique | gpt.py:49-52 | assignment keeps the keys distinct |
| OrderedMaps.PutNew | gpt.py:49-52 | assigning a new key appends one entry |
| OrderedMaps.LookupFound | gpt.py:49-52 | a name is found exactly when it is a key |
| OrderedMaps.LookupAt | gpt.py:49-52 | in a dict, each entry's name finds that entry's text |
| Extractor.ExtractPdfContent | gpt.py:37-53 | the loops produce exactly `Extracted(pdfFiles)` |
| Extractor.PagesTextEmpty | gpt.py:45-48 | a file's text is empty exactly when no page yielded a non-empty text, so pages without text add nothing |
| Extractor.PagesTextConcat | gpt.py:45-48 | the text of pages `a + b` is the text of `a` followed by the text of `b` |
| Extractor.ExtractedNames | gpt.py:39-52 | the dict's keys are distinct and are exactly the files' basenames |
| Extractor.ExtractedAbsent | gpt.py:39-40 | a name that no file has is not a key |
| Extractor.ExtractedLast | gpt.py:39-52 | a basename maps to the text (or the error placeholder) of the last file that has it |
| Extractor.ExtractedDistinct | gpt.py:37-53 | with distinct basenames, the dict holds one entry per file, in file order, each the file's text or placeholder |
| Extractor.ExtractedIsolation | gpt.py:43-52 | changing what one file yields, including turning it into a failure, changes only the value stored under its own basename; the keys and their order stay the same |
| Synthesizer.NatToString | gpt.py:82 | `str(idx)` is a non-empty string of decimal digits with no leading zero |
| Synthesizer.NatToStringValue | gpt.py:82 | `str(idx)` read back as a decimal number is `idx`, so the sections are labelled 1, 2, … in order |
| Synthesizer.NatToStringInjective | gpt.py:81-82 | different indices give different labels |
| Synthesizer.QueryPromptInjective | gpt.py:70-75 | for one question, different document texts give different `query_gemini` prompts |
| Synthesizer.SectionsSplit | gpt.py:81-82 | the sections for `a + b` are those for `a` followed by those for `b`, numbered on from `|a|` |
| Synthesizer.SectionLabels | gpt.py:81-82 | answer `k` (from 0) appears as the section labelled `k + 1`, after the sections of the earlier answers and before those of the later ones |
| Synthesizer.BuildCombinedPrompt | gpt.py:79-87 | the loop builds exactly `CombinedPrompt(answers, question)` |
| Api.SelectedMembers | gpt.py:154-155 | a document is queried exactly when it is cached and either named in `files` or `files` is empty |
| Api.SelectedAll | gpt.py:155 | with no file list, every cached document is queried, in dict order |
| Api.SelectedConcat | gpt.py:154-155 | selection is applied entry by entry, in dict order |
| Api.SelectedUnique | gpt.py:154-155 | in a dict the documents queried have distinct names, so with `SelectedMembers` each requested cached document is queried exactly once |
| Api.ConsultStaysFailed | gpt.py:154-164 | after a model call raises, no later document is queried |
| Api.ConsultCounts | gpt.py:154-157 | while no call has failed, one call has been made and one answer kept per selected document |
| Api.ConsultAllAnswered | gpt.py:154-157 | when every call succeeds, call `i` goes to document `i` and `answers[i]` is its reply, so each document is queried once, in order |
| Api.ConsultFirstFailure | gpt.py:154-164 | when call `k` is the first to fail, exactly documents 0..k have been queried |
| Api.ConsultFailureCalled | gpt.py:154-164 | a failed fan-out has made at least one call |
| Api.QueryShortCircuits | gpt.py:137-152 | for any canned table, the early exits apply in this order: a missing or empty question gives a 400; a question whose normal form is a key gets that key's answer even with an empty cache; otherwise an empty cache gives the "not initialized" 400. None of them calls the model |
| Api.QueryCallsModelUnlessShortCircuit | gpt.py:137-159 | for any canned table, the model is called exactly when no early exit applies |
| Api.QueryFansOutThenCombines | gpt.py:154-160 | when every per-document call succeeds, the prompts sent are one per selected document, in dict order and carrying the question as typed, followed by one `combine_answers` prompt over their answers in that order; the final reply, or the generic 500 when it fails, is the answer |
| Api.QueryFailsOnFirstFailure | gpt.py:154-164 | when per-document call `k` is the first to fail, the reply is the generic 500, documents 0..k were queried and `combine_answers` was never called |
| Api.QueryHiExample | gpt.py:145-146 | with `general_responses` as written, `{"question": "hi"}` gets "Hi there! How can I help you?" with no model call |
| Api.QueryCannedAnyCase | gpt.py:142-146 | with `general_responses` as written, every canned phrase but "what's your name", typed in any letter case, gets its answer with no model call, whatever the cache holds |
| Api.QueryCannedPunctuated | gpt.py:142-146 | with `general_responses` as written, every canned phrase but "what's your name", followed by a character the filter removes, gets its answer with no model call |
| Api.QueryStatuses | gpt.py:134-164 | `handle_query` replies 200 exactly when it gives an answer; otherwise it is a 400 for a missing question or an empty cache, or a 500 |
| Api.QueryNameAsWritten | gpt.py:98-159 | with `general_responses` as written, "What's your name?" is handled as if there were no canned answers: with an empty cache it is the "not initialized" 400, otherwise the model is called |
| Api.QueryNameCorrected | gpt.py:98-146 | with the corrected table, "What's your name?" gets "I'm GitHub Copilot, your programming assistant." with no model call |
| Api.FanOut | gpt.py:154-157 | the loop over `pdf_contexts.items()` yields exactly `Consult(Selected(entries, files), question, llm)` |
| Api.Server.HandleQuery | gpt.py:134-164 | the handler's reply and model calls are exactly `Query(GeneralResponses, contexts, request, llm)`, the table as written |
| Api.Server.InitContexts | gpt.py:117-131 | with no files, a "No PDF files found" message and the cache unchanged. Otherwise the freshly extracted dict replaces the cache, with the success message, once persisting succeeded; a failed write gives the generic 500 and leaves the cache unchanged. The cache stays a dict |
| Api.Server.constructor | gpt.py:55-66 | the cache starts as the saved dict when one is loaded, otherwise as the extraction of the folder's files |

## Left out

- Flask is not modelled. That covers routing, `request.get_json`, `jsonify` and `render_template`. A request is the `QueryRequest` value and a reply the `Reply` value.
- Some request bodies are not modelled because they are not JSON objects with string fields:
  - a body that is not JSON, which ends in the generic 500;
  - a `question` that is falsy but not a string (`0`, `false`, `[]`);
  - a `question` that is truthy but not a string (`5`, `["hi"]`), on which `.lower()` raises `AttributeError` and the handler gives the generic 500;
  - a `files` value that is not a list: `null` ends in a `TypeError` and the 500, and a string is matched by substring.
- pdfplumber is not modelled. `PdfSource` gives each file's page texts and failure message.
- `glob`, `os.path.basename`, the folder path, the pickle file and `load_or_create_contexts`'s file handling are inputs:
  - the file list and basenames are given;
  - whether `pickle.dump` succeeded is the `persisted` flag of `InitContexts`;
  - the loaded dict is the constructor's `saved` argument.
- A failed `pickle.load` or a start-up write that fails stops the server; the constructor does not model that. A partly written cache file is not modelled.
- The Gemini API and `generation_config` are not modelled. The model is the `Oracle` parameter.
- Logging is left out.
- Concurrency is left out: the unsynchronised global `pdf_contexts` shared by `/api/init` and `/api/query`.
- Classifier.Lower: only ASCII `A`-`Z` are lower-cased. Python's `str.lower` also folds other letters, such as `À` and the Kelvin sign, and can lengthen a string (`İ`). Those characters are then removed by the filter in any case, except where they lower-case to an ASCII letter.
- Classifier.IsSpace: `\s` is the set of characters for which `str.isspace` holds.

## Findings

| source | as written | input that shows it | evidently intended | confidence | as-written member | corrected member |
|---|---|---|---|---|---|---|
| gpt.py:98 | `general_responses` has the key `"what's your name"`, but lookups use `preprocess_question`'s result, whose filter always removes the apostrophe | the question `"What's your name?"` normalises to `"whats your name"`, which is not a key, so it goes to the PDF documents | the key stored in normal form, `"whats your name"`, with the same answer | high (not executed) | Classifier.ApostropheKeyUnreachable, Api.QueryNameAsWritten | Classifier.CannedKeyReachable, Classifier.CannedCoversGeneral, Api.QueryNameCorrected |
