/**
 * The question classifier of gpt.py: `preprocess_question` normalises a raw
 * question and the `general_responses` table maps a normalised phrase to a
 * canned answer.
 */
module Classifier {
  import opened Wrappers
  import opened Seqs

  // ---------------------------------------------------------------------
  // Character classes
  // ---------------------------------------------------------------------

  /** `str.lower` on one character; only the ASCII letters are modelled. */
  function Lower(c: char): char
  {
    if 'A' <= c <= 'Z' then (c as int - 'A' as int + 'a' as int) as char else c
  }

  /** The characters Python's `\s` matches in a `str` pattern (those for which `str.isspace` holds). */
  predicate IsSpace(c: char)
  {
    ('\t' <= c <= '\r') || ('\U{1C}' <= c <= '\U{1F}') || c == ' '
    || c == '\U{85}' || c == '\U{A0}' || c == '\U{1680}'
    || ('\U{2000}' <= c <= '\U{200A}') || c == '\U{2028}' || c == '\U{2029}'
    || c == '\U{202F}' || c == '\U{205F}' || c == '\U{3000}'
  }

  /** The characters the class `[a-zA-Z0-9\s]` keeps. */
  predicate Kept(c: char)
  {
    ('a' <= c <= 'z') || ('A' <= c <= 'Z') || ('0' <= c <= '9') || IsSpace(c)
  }

  /** The alphabet of a normalised question: lower-case ASCII letters, digits, whitespace. */
  predicate NormalChar(c: char)
  {
    ('a' <= c <= 'z') || ('0' <= c <= '9') || IsSpace(c)
  }

  predicate AllNormal(s: string)
  {
    forall i :: 0 <= i < |s| ==> NormalChar(s[i])
  }

  // ---------------------------------------------------------------------
  // The three steps of preprocess_question
  // ---------------------------------------------------------------------

  /** `question.lower()` */
  function LowerAll(s: string): string
  {
    if s == [] then [] else [Lower(s[0])] + LowerAll(s[1..])
  }

  /** `re.sub(r'[^a-zA-Z0-9\s]', '', s)` */
  function Strip(s: string): string
  {
    if s == [] then [] else (if Kept(s[0]) then [s[0]] else []) + Strip(s[1..])
  }

  /** `s.replace(pat, rep)`: every non-overlapping occurrence, scanning left to right. */
  function ReplaceAll(s: string, pat: string, rep: string): string
    requires |pat| > 0
    decreases |s|
  {
    if |s| < |pat| then s
    else if s[..|pat|] == pat then rep + ReplaceAll(s[|pat|..], pat, rep)
    else [s[0]] + ReplaceAll(s[1..], pat, rep)
  }

  const Expansion: string := "bokaro steel plant"

  /** `preprocess_question(question)` */
  function Normalize(question: string): string
  {
    var kept := Strip(LowerAll(question));
    ReplaceAll(ReplaceAll(kept, "bsl", Expansion), "bsp", Expansion)
  }

  // ---------------------------------------------------------------------
  // Occurrences of a pattern
  // ---------------------------------------------------------------------

  predicate OccursAt(s: string, pat: string, i: int)
  {
    0 <= i && i + |pat| <= |s| && s[i..i + |pat|] == pat
  }

  /** `pat` is not a substring of `s`. */
  ghost predicate Avoids(s: string, pat: string)
  {
    forall i :: !OccursAt(s, pat, i)
  }
  /** An occurrence needs the first two characters of `pat` side by side. */
  lemma NoPairAvoids(s: string, pat: string)
    requires |pat| >= 2
    requires forall i :: 0 <= i < |s| - 1 ==> !(s[i] == pat[0] && s[i + 1] == pat[1])
    ensures Avoids(s, pat)
  {
    forall i ensures !OccursAt(s, pat, i) {
      if 0 <= i && i + |pat| <= |s| {
        assert s[i..i + |pat|][0] == s[i] && s[i..i + |pat|][1] == s[i + 1];
      }
    }
  }

  lemma AvoidsDrop(s: string, pat: string, k: nat)
    requires Avoids(s, pat) && k <= |s|
    ensures Avoids(s[k..], pat)
  {
    forall i ensures !OccursAt(s[k..], pat, i) {
      if 0 <= i && i + |pat| <= |s[k..]| {
        assert s[k..][i..i + |pat|] == s[k + i..k + i + |pat|];
        assert !OccursAt(s, pat, k + i);
      }
    }
  }

  // ---------------------------------------------------------------------
  // Lemmas about the steps
  // ---------------------------------------------------------------------

  lemma {:induction false} LowerAllConcat(a: string, b: string)
    ensures LowerAll(a + b) == LowerAll(a) + LowerAll(b)
  {
    if a == [] {
      assert a + b == b;
    } else {
      assert (a + b)[1..] == a[1..] + b;
      LowerAllConcat(a[1..], b);
    }
  }

  lemma StripCons(c: char, s: string)
    ensures Strip([c] + s) == (if Kept(c) then [c] else []) + Strip(s)
  {
    assert ([c] + s)[1..] == s;
  }

  lemma {:induction false} StripConcat(a: string, b: string)
    ensures Strip(a + b) == Strip(a) + Strip(b)
  {
    if a == [] {
      assert a + b == b;
    } else {
      var c, t := a[0], a[1..];
      assert a == [c] + t && a + b == [c] + (t + b);
      StripConcat(t, b);
      StripCons(c, t);
      StripCons(c, t + b);
      Assoc(if Kept(c) then [c] else [], Strip(t), Strip(b));
    }
  }

  /** Lower-casing is character by character. */
  lemma {:induction false} LowerAllAt(s: string)
    ensures |LowerAll(s)| == |s|
    ensures forall i :: 0 <= i < |s| ==> LowerAll(s)[i] == Lower(s[i])
  {
    if s != [] {
      LowerAllAt(s[1..]);
    }
  }

  /** After lower-casing and stripping only the normal alphabet is left. */
  lemma {:induction false} StripLowerNormal(s: string)
    ensures AllNormal(Strip(LowerAll(s)))
  {
    if s != [] {
      StripLowerNormal(s[1..]);
      assert LowerAll(s) == [Lower(s[0])] + LowerAll(s[1..]);
      StripConcat([Lower(s[0])], LowerAll(s[1..]));
      assert Strip([Lower(s[0])]) == if Kept(Lower(s[0])) then [Lower(s[0])] else [];
    }
  }

  lemma {:induction false} LowerAllFix(s: string)
    requires forall i :: 0 <= i < |s| ==> !('A' <= s[i] <= 'Z')
    ensures LowerAll(s) == s
  {
    if s != [] {
      assert forall i :: 0 <= i < |s[1..]| ==> s[1..][i] == s[i + 1];
      LowerAllFix(s[1..]);
    }
  }

  lemma {:induction false} StripFix(s: string)
    requires AllNormal(s)
    ensures Strip(s) == s
  {
    if s != [] {
      assert AllNormal(s[1..]) by { forall i | 0 <= i < |s[1..]| ensures NormalChar(s[1..][i]) { assert s[1..][i] == s[i + 1]; } }
      StripFix(s[1..]);
      assert NormalChar(s[0]);
    }
  }

  lemma {:induction false} ReplaceAllNormal(s: string, pat: string, rep: string)
    requires |pat| > 0 && AllNormal(s) && AllNormal(rep)
    ensures AllNormal(ReplaceAll(s, pat, rep))
    decreases |s|
  {
    if |s| >= |pat| {
      if s[..|pat|] == pat {
        assert AllNormal(s[|pat|..]) by { forall i | 0 <= i < |s[|pat|..]| ensures NormalChar(s[|pat|..][i]) { assert s[|pat|..][i] == s[i + |pat|]; } }
        ReplaceAllNormal(s[|pat|..], pat, rep);
      } else {
        assert AllNormal(s[1..]) by { forall i | 0 <= i < |s[1..]| ensures NormalChar(s[1..][i]) { assert s[1..][i] == s[i + 1]; } }
        ReplaceAllNormal(s[1..], pat, rep);
      }
    }
  }

  /** Text with no occurrence is left as it is. */
  lemma {:induction false} ReplaceAllFix(s: string, pat: string, rep: string)
    requires |pat| > 0 && Avoids(s, pat)
    ensures ReplaceAll(s, pat, rep) == s
    decreases |s|
  {
    if |s| >= |pat| {
      assert !OccursAt(s, pat, 0);
      AvoidsDrop(s, pat, 1);
      ReplaceAllFix(s[1..], pat, rep);
    }
  }

  /** A result that does not start with the replacement text starts with the input's first character. */
  lemma ReplaceAllHead(s: string, pat: string, rep: string)
    requires |pat| > 0 && |rep| > 0
    requires |ReplaceAll(s, pat, rep)| > 0 && ReplaceAll(s, pat, rep)[0] != rep[0]
    ensures |s| > 0 && ReplaceAll(s, pat, rep) == [s[0]] + ReplaceAll(s[1..], pat, rep)
  {
    if |s| < |pat| {
      assert s == [s[0]] + s[1..];
    }
  }

  /** Joining two texts without `q` creates none when `x` does not end in a start of `q`. */
  lemma AvoidsConcat(x: string, y: string, q: string)
    requires |q| == 3 && Avoids(x, q) && Avoids(y, q)
    requires |x| >= 2 && x[|x| - 1] != q[0] && x[|x| - 2] != q[0]
    ensures Avoids(x + y, q)
  {
    var t := x + y;
    forall i ensures !OccursAt(t, q, i) {
      if !(0 <= i && i + 3 <= |t|) {
      } else if i + 3 <= |x| {
        assert t[i..i + 3] == x[i..i + 3];
        assert !OccursAt(x, q, i);
      } else if i >= |x| {
        assert t[i..i + 3] == y[i - |x|..i - |x| + 3];
        assert !OccursAt(y, q, i - |x|);
      } else {
        assert t[i] == x[i];
        assert t[i..i + 3][0] == t[i];
      }
    }
  }

  /** Prefixing one character to a text without `q` creates `q` only at the front. */
  lemma AvoidsCons(c: char, y: string, q: string)
    requires |q| == 3 && Avoids(y, q)
    requires !(|y| >= 2 && c == q[0] && y[0] == q[1] && y[1] == q[2])
    ensures Avoids([c] + y, q)
  {
    var t := [c] + y;
    forall i ensures !OccursAt(t, q, i) {
      if !(0 <= i && i + 3 <= |t|) {
      } else if i >= 1 {
        assert t[i..i + 3] == y[i - 1..i - 1 + 3];
        assert !OccursAt(y, q, i - 1);
      } else {
        assert t[0..3][0] == c && t[0..3][1] == y[0] && t[0..3][2] == y[1];
      }
    }
  }

  /** A result of replacing in `s[1..]` that starts with two letters other than `rep[0]` copies them from `s`. */
  lemma ReplaceAllStart(s: string, pat: string, rep: string, q: string)
    requires |pat| > 0 && |rep| > 0 && |q| == 3 && |s| >= 1
    requires rep[0] != q[1] && rep[0] != q[2]
    ensures var rest := ReplaceAll(s[1..], pat, rep);
      |rest| >= 2 && rest[0] == q[1] && rest[1] == q[2] ==> |s| >= 3 && s[1] == q[1] && s[2] == q[2]
  {
    var rest := ReplaceAll(s[1..], pat, rep);
    if |rest| >= 2 && rest[0] == q[1] && rest[1] == q[2] {
      ReplaceAllHead(s[1..], pat, rep);
      assert s[1..][1..] == s[2..];
      var rest2 := ReplaceAll(s[2..], pat, rep);
      assert rest == [s[1]] + rest2;
      ReplaceAllHead(s[2..], pat, rep);
      assert s[2..][0] == s[2];
    }
  }

  /**
   * Replacing leaves no occurrence of a three-letter pattern `q`: either `q` is
   * the pattern being replaced, or `q` was absent before; the replacement must
   * not contain `q` nor create one at either edge.
   */
  lemma {:induction false} ReplaceAllAvoids(s: string, pat: string, rep: string, q: string)
    requires |pat| == 3 && |q| == 3
    requires q == pat || Avoids(s, q)
    requires Avoids(rep, q) && |rep| >= 2
    requires rep[0] != q[1] && rep[0] != q[2]
    requires rep[|rep| - 1] != q[0] && rep[|rep| - 2] != q[0]
    ensures Avoids(ReplaceAll(s, pat, rep), q)
    decreases |s|
  {
    if |s| < |pat| {
      assert ReplaceAll(s, pat, rep) == s;
    } else if s[..|pat|] == pat {
      if q != pat { AvoidsDrop(s, q, 3); }
      ReplaceAllAvoids(s[3..], pat, rep, q);
      AvoidsConcat(rep, ReplaceAll(s[3..], pat, rep), q);
    } else {
      if q != pat { AvoidsDrop(s, q, 1); }
      ReplaceAllAvoids(s[1..], pat, rep, q);
      var rest := ReplaceAll(s[1..], pat, rep);
      assert s[..3] != q by {
        if q != pat {
          assert s[0..3] == s[..3];
          assert !OccursAt(s, q, 0);
        }
      }
      assert !(s[0] == q[0] && s[1] == q[1] && s[2] == q[2]) by {
        assert s[..3][0] == s[0] && s[..3][1] == s[1] && s[..3][2] == s[2];
      }
      ReplaceAllStart(s, pat, rep, q);
      AvoidsCons(s[0], rest, q);
    }
  }

  // ---------------------------------------------------------------------
  // Properties of preprocess_question
  // ---------------------------------------------------------------------

  lemma ExpansionFacts()
    ensures AllNormal(Expansion)
    ensures Avoids(Expansion, "bsl") && Avoids(Expansion, "bsp")
  {
    NoPairAvoids(Expansion, "bsl");
    NoPairAvoids(Expansion, "bsp");
  }

  /** A normalised question holds only lower-case ASCII letters, digits and whitespace. */
  lemma NormalizeAlphabet(question: string)
    ensures AllNormal(Normalize(question))
  {
    var kept := Strip(LowerAll(question));
    StripLowerNormal(question);
    ExpansionFacts();
    ReplaceAllNormal(kept, "bsl", Expansion);
    ReplaceAllNormal(ReplaceAll(kept, "bsl", Expansion), "bsp", Expansion);
  }

  /** No `bsl` and no `bsp` survives normalisation. */
  lemma NormalizeExpandsAbbreviations(question: string)
    ensures Avoids(Normalize(question), "bsl") && Avoids(Normalize(question), "bsp")
  {
    var kept := Strip(LowerAll(question));
    var once := ReplaceAll(kept, "bsl", Expansion);
    ExpansionFacts();
    ReplaceAllAvoids(kept, "bsl", Expansion, "bsl");
    ReplaceAllAvoids(once, "bsp", Expansion, "bsp");
    ReplaceAllAvoids(once, "bsp", Expansion, "bsl");
  }

  /** A string already in normal form is its own normalisation. */
  lemma NormalizeFix(s: string)
    requires AllNormal(s) && Avoids(s, "bsl") && Avoids(s, "bsp")
    ensures Normalize(s) == s
  {
    LowerAllFix(s);
    StripFix(s);
    ReplaceAllFix(s, "bsl", Expansion);
    ReplaceAllFix(s, "bsp", Expansion);
  }

  /** `preprocess_question(preprocess_question(q)) == preprocess_question(q)` */
  lemma NormalizeIdempotent(question: string)
    ensures Normalize(Normalize(question)) == Normalize(question)
  {
    NormalizeAlphabet(question);
    NormalizeExpandsAbbreviations(question);
    NormalizeFix(Normalize(question));
  }

  /** Two questions that differ only in letter case normalise alike. */
  lemma NormalizeIgnoresCase(a: string, b: string)
    requires |a| == |b|
    requires forall i :: 0 <= i < |a| ==> Lower(a[i]) == Lower(b[i])
    ensures Normalize(a) == Normalize(b)
  {
    LowerAllAt(a);
    LowerAllAt(b);
    assert LowerAll(a) == LowerAll(b);
  }

  /** A character outside `[a-zA-Z0-9\s]` (after lower-casing) makes no difference. */
  lemma NormalizeIgnoresStripped(a: string, c: char, b: string)
    requires !Kept(Lower(c))
    ensures Normalize(a + [c] + b) == Normalize(a + b)
  {
    LowerAllConcat(a + [c], b);
    LowerAllConcat(a, [c]);
    LowerAllConcat(a, b);
    assert LowerAll([c]) == [Lower(c)];
    StripConcat(LowerAll(a) + [Lower(c)], LowerAll(b));
    StripConcat(LowerAll(a), [Lower(c)]);
    StripConcat(LowerAll(a), LowerAll(b));
    assert Strip([Lower(c)]) == [];
    assert Strip(LowerAll(a + [c] + b)) == Strip(LowerAll(a + b));
  }

  // ---------------------------------------------------------------------
  // The canned-answer table
  // ---------------------------------------------------------------------

  /** `general_responses` as the source writes it. */
  const GeneralResponses: map<string, string> := map[
    "hello" := "Hello! How can I assist you today?",
    "hi" := "Hi there! How can I help you?",
    "how are you" := "I'm just a program, but I'm here to help you!",
    "what's your name" := "I'm GitHub Copilot, your programming assistant.",
    "what day is it" := "Today is a great day to code!",
    "thank you" := "You're welcome!",
    "thanks" := "You're welcome!",
    "hey" := "Hey there!"
  ]

  /**
   * The table the lookup is evidently meant to use: the key "what's your name"
   * replaced by its normal form "whats your name", with the same answer.
   */
  const CannedResponses: map<string, string> := map[
    "hello" := "Hello! How can I assist you today?",
    "hi" := "Hi there! How can I help you?",
    "how are you" := "I'm just a program, but I'm here to help you!",
    "whats your name" := "I'm GitHub Copilot, your programming assistant.",
    "what day is it" := "Today is a great day to code!",
    "thank you" := "You're welcome!",
    "thanks" := "You're welcome!",
    "hey" := "Hey there!"
  ]

  /** `processed_question in table`, then the stored answer. */
  function Classify(table: map<string, string>, normalized: string): Option<string>
  {
    if normalized in table then Some(table[normalized]) else None
  }

  /** As written, the key "what's your name" can never be matched: its apostrophe is always stripped. */
  lemma ApostropheKeyUnreachable()
    ensures "what's your name" in GeneralResponses
    ensures forall question :: Normalize(question) != "what's your name"
  {
    forall question ensures Normalize(question) != "what's your name" {
      NormalizeAlphabet(question);
      assert !NormalChar("what's your name"[4]);
    }
  }

  /** Text without a `b` holds neither abbreviation. */
  lemma NoAbbreviationWithoutB(s: string)
    requires forall i :: 0 <= i < |s| ==> s[i] != 'b'
    ensures Avoids(s, "bsl") && Avoids(s, "bsp")
  {
    NoPairAvoids(s, "bsl");
    NoPairAvoids(s, "bsp");
  }

  /** A phrase of lower-case letters other than `b` and spaces is in normal form. */
  lemma CannedKeyFix(k: string)
    requires forall i :: 0 <= i < |k| ==> ('a' <= k[i] <= 'z' && k[i] != 'b') || k[i] == ' '
    ensures Normalize(k) == k
  {
    assert AllNormal(k) by {
      forall i | 0 <= i < |k| ensures NormalChar(k[i]) {
        assert IsSpace(' ');
      }
    }
    NoAbbreviationWithoutB(k);
    NormalizeFix(k);
  }

  /** Every key of the corrected table is reachable: it is its own normalisation. */
  lemma CannedKeyReachable(k: string)
    requires k in CannedResponses
    ensures Normalize(k) == k && Classify(CannedResponses, Normalize(k)) == Some(CannedResponses[k])
  {
    if k == "hello" || k == "hi" || k == "how are you" || k == "whats your name" {
      FirstKeysFix(k);
    } else {
      LastKeysFix(k);
    }
  }

  // The lemmas from here on about one literal phrase take it as a parameter pinned by
  // `requires`: with the literal inline, the solver unfolds `Normalize` or the table
  // literals on it inside every caller's proof, which runs past the resource limit;
  // a parameter keeps that work inside the small lemma.
  lemma FirstKeysFix(k: string)
    requires k == "hello" || k == "hi" || k == "how are you" || k == "whats your name"
    ensures Normalize(k) == k
  {
    if k == "hello" { CannedKeyFix("hello"); }
    else if k == "hi" { CannedKeyFix("hi"); }
    else if k == "how are you" { CannedKeyFix("how are you"); }
    else { CannedKeyFix("whats your name"); }
  }

  lemma LastKeysFix(k: string)
    requires k == "what day is it" || k == "thank you" || k == "thanks" || k == "hey"
    ensures Normalize(k) == k
  {
    if k == "what day is it" { CannedKeyFix("what day is it"); }
    else if k == "thank you" { CannedKeyFix("thank you"); }
    else if k == "thanks" { CannedKeyFix("thanks"); }
    else { CannedKeyFix("hey"); }
  }

  /** Normalising "what's your name" only drops the apostrophe. */
  lemma ApostropheKeyNormal(k: string)
    requires k == "what's your name"
    ensures Normalize(k) == "whats your name"
  {
    var a, b := "what", "s your name";
    assert k == a + ['\''] + b;
    NormalizeIgnoresStripped(a, '\'', b);
    assert a + b == "whats your name";
    FirstKeysFix(a + b);
  }

  /** The corrected table answers each phrase of the written table, once normalised, as it was meant to. */
  lemma CannedCoversGeneral(k: string)
    requires k in GeneralResponses
    ensures Normalize(k) in CannedResponses && CannedResponses[Normalize(k)] == GeneralResponses[k]
  {
    if k == "what's your name" {
      ApostropheKeyCovered(k);
    } else {
      SharedKeyCovered(k);
    }
  }

  const NameAnswer: string := "I'm GitHub Copilot, your programming assistant."

  lemma GeneralNameAnswer(k: string)
    requires k == "what's your name"
    ensures k in GeneralResponses && GeneralResponses[k] == NameAnswer
  {
  }

  lemma CannedNameAnswer(k: string)
    requires k == "whats your name"
    ensures k in CannedResponses && CannedResponses[k] == NameAnswer
  {
  }

  lemma ApostropheKeyCovered(k: string)
    requires k == "what's your name"
    ensures Normalize(k) in CannedResponses && CannedResponses[Normalize(k)] == GeneralResponses[k]
  {
    ApostropheKeyNormal(k);
    GeneralNameAnswer(k);
    CannedNameAnswer(Normalize(k));
  }

  /** The two tables agree on every key but the apostrophe one, and those keys are normal. */
  lemma SharedKeyCovered(k: string)
    requires k in GeneralResponses && k != "what's your name"
    ensures Normalize(k) in CannedResponses && CannedResponses[Normalize(k)] == GeneralResponses[k]
  {
    assert k in CannedResponses && CannedResponses[k] == GeneralResponses[k];
    CannedKeyReachable(k);
  }

  /** Every key of the written table but the apostrophe one is its own normalisation. */
  lemma GeneralKeyReachable(k: string)
    requires k in GeneralResponses && k != "what's your name"
    ensures Normalize(k) == k && Normalize(k) in GeneralResponses
  {
    assert k in CannedResponses;
    CannedKeyReachable(k);
  }

  /** `preprocess_question("What's your name?") == "whats your name"` */
  lemma NameQuestionNormal(question: string)
    requires question == "What's your name?"
    ensures Normalize(question) == "whats your name"
  {
    NameDropMark(question, "What's your name");
    NameLowered("What's your name", "what's your name");
    ApostropheKeyNormal("what's your name");
  }

  lemma NameDropMark(question: string, typed: string)
    requires question == "What's your name?" && typed == "What's your name"
    ensures Normalize(question) == Normalize(typed)
  {
    assert question == typed + ['?'] + [] && typed + [] == typed;
    NormalizeIgnoresStripped(typed, '?', []);
  }

  lemma NameLowered(typed: string, key: string)
    requires typed == "What's your name" && key == "what's your name"
    ensures Normalize(typed) == Normalize(key)
  {
    var rest := key[1..];
    assert typed == ['W'] + rest && key == ['w'] + rest;
    forall i | 0 <= i < |typed| ensures Lower(typed[i]) == Lower(key[i]) {
      if i > 0 {
        assert typed[i] == rest[i - 1] == key[i];
      }
    }
    NormalizeIgnoresCase(typed, key);
  }

  /** "whats your name" is a key of the corrected table only. */
  lemma NameKeyAbsent(k: string)
    requires k == "whats your name"
    ensures k !in GeneralResponses
    ensures k in CannedResponses && CannedResponses[k] == NameAnswer
  {
  }

  /**
   * A key that is its own normal form, typed in any letter case, is recognised.
   * In `GeneralResponses` that is every key but "what's your name"
   * (`GeneralKeyReachable`); in `CannedResponses` every key (`CannedKeyReachable`).
   */
  lemma CannedKeyAnyCase(table: map<string, string>, k: string, question: string)
    requires k in table && Normalize(k) == k
    requires |question| == |k| && forall i :: 0 <= i < |k| ==> Lower(question[i]) == k[i]
    ensures Classify(table, Normalize(question)) == Some(table[k])
  {
    NormalizeAlphabet(k);
    forall i | 0 <= i < |k| ensures Lower(question[i]) == Lower(k[i]) {
      assert NormalChar(Normalize(k)[i]);
    }
    NormalizeIgnoresCase(question, k);
  }

  /** A key that is its own normal form, followed by punctuation (`"hello!"`, `"thanks."`), is recognised. */
  lemma CannedKeyPunctuated(table: map<string, string>, k: string, c: char)
    requires k in table && Normalize(k) == k && !Kept(Lower(c))
    ensures Classify(table, Normalize(k + [c])) == Some(table[k])
  {
    NormalizeIgnoresStripped(k, c, []);
    assert k + [c] + [] == k + [c] && k + [] == k;
  }

  /** `preprocess_question("Hello!") == preprocess_question("hello") == "hello"`, a canned key. */
  lemma HelloExample(question: string, key: string)
    requires question == "Hello!" && key == "hello"
    ensures Normalize(question) == Normalize(key) == key
    ensures Classify(GeneralResponses, Normalize(question)) == Some("Hello! How can I assist you today?")
    ensures Classify(CannedResponses, Normalize(question)) == Some("Hello! How can I assist you today?")
  {
    HelloSameAsKey(question, key);
    FirstKeysFix(key);
    CannedHello(key);
  }

  lemma HelloSameAsKey(question: string, key: string)
    requires question == "Hello!" && key == "hello"
    ensures Normalize(question) == Normalize(key)
  {
    var typed := question[..5];
    assert question == typed + [question[5]] + [] && typed + [] == typed;
    NormalizeIgnoresStripped(typed, question[5], []);
    NormalizeIgnoresCase(typed, key);
  }

  lemma CannedHello(key: string)
    requires key == "hello"
    ensures key in GeneralResponses && GeneralResponses[key] == "Hello! How can I assist you today?"
    ensures key in CannedResponses && CannedResponses[key] == "Hello! How can I assist you today?"
  {
  }
}
