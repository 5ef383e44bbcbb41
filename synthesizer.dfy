/**
 * The prompt text of the answer synthesizer in gpt.py: `query_gemini` asks
 * about one document, `combine_answers` asks for one answer from the
 * per-document answers, labelled "Answer from PDF 1", "Answer from PDF 2", ...
 * Sending a prompt to the model is not part of this module.
 */
module Synthesizer {
  import opened Seqs

  /** The decimal digit for `d`. */
  function Digit(d: nat): char
    requires d < 10
  {
    ('0' as int + d) as char
  }

  /** `str(n)`: decimal, without leading zeros. */
  function NatToString(n: nat): (s: string)
    ensures |s| >= 1 && forall i :: 0 <= i < |s| ==> '0' <= s[i] <= '9'
    ensures (s[0] == '0') == (n == 0)
    ensures n >= 10 ==> |s| >= 2
  {
    if n < 10 then [Digit(n)] else NatToString(n / 10) + [Digit(n % 10)]
  }

  /** The number a string of decimal digits denotes, read most significant digit first. */
  function DecimalValue(s: string): int
  {
    if s == [] then 0 else 10 * DecimalValue(s[..|s| - 1]) + (s[|s| - 1] as int - '0' as int)
  }

  /** `int(str(n)) == n`: the label is `n` written in decimal. */
  lemma {:induction false} NatToStringValue(n: nat)
    ensures DecimalValue(NatToString(n)) == n
  {
    var s := NatToString(n);
    if n < 10 {
      assert s[..0] == [];
    } else {
      assert s[..|s| - 1] == NatToString(n / 10);
      NatToStringValue(n / 10);
    }
  }

  /** Different labels are different text. */
  lemma NatToStringInjective(a: nat, b: nat)
    ensures NatToString(a) == NatToString(b) ==> a == b
  {
    NatToStringValue(a);
    NatToStringValue(b);
  }

  // ---------------------------------------------------------------------
  // query_gemini
  // ---------------------------------------------------------------------

  const QueryHeader: string := "Below is content extracted from a PDF document:\n\n"
  const QueryInstruction: string := "Please provide an answer based solely on the above content."

  /** The one message `query_gemini(pdf_text, user_question)` sends. */
  function QueryPrompt(pdfText: string, question: string): string
  {
    QueryHeader + pdfText + "\n\n" + "User question: " + question + "\n\n" + QueryInstruction
  }

  /** For one question, different documents give different prompts. */
  lemma QueryPromptInjective(t1: string, t2: string, question: string)
    requires QueryPrompt(t1, question) == QueryPrompt(t2, question)
    ensures t1 == t2
  {
    var p := QueryPrompt(t1, question);
    assert |t1| == |t2|;
    assert p[|QueryHeader|..|QueryHeader| + |t1|] == t1;
    assert QueryPrompt(t2, question)[|QueryHeader|..|QueryHeader| + |t2|] == t2;
  }

  // ---------------------------------------------------------------------
  // combine_answers
  // ---------------------------------------------------------------------

  const CombineHeader: string := "Below are answers derived from multiple PDF documents:\n"
  const CombineInstruction: string :=
    "Based on the above responses, please synthesize and provide a final, consolidated answer. Act like a private gpt and do not tell that you have derived it from somewhere else"

  /** `f"\n---\nAnswer from PDF {idx}:\n{answer}\n"` */
  function Section(index: nat, answer: string): string
  {
    "\n---\nAnswer from PDF " + NatToString(index) + ":\n" + answer + "\n"
  }

  /** The sections for `answers`, labelled from `first` on. */
  function SectionsFrom(first: nat, answers: seq<string>): string
  {
    if answers == [] then ""
    else SectionsFrom(first, answers[..|answers| - 1]) + Section(first + |answers| - 1, answers[|answers| - 1])
  }

  function CombineFooter(question: string): string
  {
    "\n---\n" + "User question: " + question + "\n\n" + CombineInstruction
  }

  /** The one message `combine_answers(answers, user_question)` sends. */
  function CombinedPrompt(answers: seq<string>, question: string): string
  {
    CombineHeader + SectionsFrom(1, answers) + CombineFooter(question)
  }

  lemma SectionsSnoc(first: nat, s: seq<string>, x: string)
    ensures SectionsFrom(first, s + [x]) == SectionsFrom(first, s) + Section(first + |s|, x)
  {
    assert (s + [x])[..|s|] == s;
  }

  lemma {:induction false} SectionsSplit(first: nat, a: seq<string>, b: seq<string>)
    ensures SectionsFrom(first, a + b) == SectionsFrom(first, a) + SectionsFrom(first + |a|, b)
    decreases |b|
  {
    if b == [] {
      assert a + b == a;
    } else {
      var b', x := b[..|b| - 1], b[|b| - 1];
      assert a + b == (a + b') + [x];
      SectionsSnoc(first, a + b', x);
      SectionsSnoc(first + |a|, b', x);
      SectionsSplit(first, a, b');
      Assoc(SectionsFrom(first, a), SectionsFrom(first + |a|, b'), Section(first + |a| + |b'|, x));
    }
  }

  lemma SectionsSingle(first: nat, x: string)
    ensures SectionsFrom(first, [x]) == Section(first, x)
  {
    assert [x][..0] == [];
  }

  /**
   * Answer `k` (counting from 0) is the section labelled `k + 1`, after the
   * sections of the answers before it and before those of the answers after it.
   */
  lemma SectionLabels(answers: seq<string>, k: nat)
    requires k < |answers|
    ensures SectionsFrom(1, answers) ==
      SectionsFrom(1, answers[..k]) + Section(k + 1, answers[k]) + SectionsFrom(k + 2, answers[k + 1..])
  {
    var pre, mid, post := answers[..k], [answers[k]], answers[k + 1..];
    assert answers == pre + (mid + post);
    SectionsSplit(1, pre, mid + post);
    SectionsSplit(k + 1, mid, post);
    SectionsSingle(k + 1, answers[k]);
    Assoc(SectionsFrom(1, pre), Section(k + 1, answers[k]), SectionsFrom(k + 2, post));
  }

  /** The loop of `combine_answers` that builds `combined_prompt`. */
  method BuildCombinedPrompt(answers: seq<string>, question: string) returns (prompt: string)
    ensures prompt == CombinedPrompt(answers, question)
  {
    prompt := CombineHeader;
    var idx := 1;
    while idx <= |answers|
      invariant 1 <= idx <= |answers| + 1
      invariant prompt == CombineHeader + SectionsFrom(1, answers[..idx - 1])
    {
      var section := "\n---\nAnswer from PDF " + NatToString(idx) + ":\n" + answers[idx - 1] + "\n";
      assert answers[..idx] == answers[..idx - 1] + [answers[idx - 1]];
      SectionsSnoc(1, answers[..idx - 1], answers[idx - 1]);
      Assoc(CombineHeader, SectionsFrom(1, answers[..idx - 1]), section);
      prompt := prompt + section;
      idx := idx + 1;
    }
    assert answers[..idx - 1] == answers;
    var footer := "\n---\n" + "User question: " + question + "\n\n" + CombineInstruction;
    prompt := prompt + footer;
  }
}
