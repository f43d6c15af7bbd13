/**
 * The fixed English and Italian strings from which scripts/prompt_rewriter.py
 * builds requests, example pairs, rewriting instructions and chat turns, with the
 * facts the prompt builders rely on: a request gives back its sentence, every
 * template is a single line, and the chat templates survive `strip`.
 */
module PromptTemplates {
  import opened Wrappers
  import opened Text

  /** The two prompt languages the templates exist in. */
  datatype Language = En | It

  function LanguageCode(lang: Language): string {
    match lang
    case En => "en"
    case It => "it"
  }

  /** The `language` argument as the prompt builders read it; any other code has no templates. */
  function ParseLanguage(code: string): (r: Option<Language>)
    ensures r.Some? <==> code == "en" || code == "it"
    ensures r.Some? ==> LanguageCode(r.value) == code
  {
    if code == "en" then Some(En)
    else if code == "it" then Some(It)
    else None
  }

  lemma ParseLanguageCode(lang: Language)
    ensures ParseLanguage(LanguageCode(lang)) == Some(lang)
  {
  }

  // ---------------------------------------------------------------- requests

  function RequestHead(lang: Language): string {
    match lang
    case En => "Original sentence: <"
    case It => "Frase originale: <"
  }

  function RequestTail(lang: Language): string {
    match lang
    case En => "> Rewritten sentence:"
    case It => "> Riformulazione:"
  }

  /** The open-ended request for one sentence, without the rewrite. */
  function Request(lang: Language, sent: string): string {
    RequestHead(lang) + sent + RequestTail(lang)
  }

  /** The fixed parts of a request are single lines that start and end with visible characters. */
  lemma RequestParts(lang: Language)
    ensures '\n' !in RequestHead(lang) && '\n' !in RequestTail(lang)
    ensures |RequestHead(lang)| > 0 && !IsSpace(RequestHead(lang)[0])
    ensures |RequestTail(lang)| > 0 && RequestTail(lang)[|RequestTail(lang)| - 1] == ':'
  {
    match lang
    case En =>
      assert '\n' !in "Original sentence: <";
      assert '\n' !in "> Rewritten sentence:";
    case It =>
      assert '\n' !in "Frase originale: <";
      assert '\n' !in "> Riformulazione:";
  }

  /** A request neither starts nor ends with whitespace, and is one line when its sentence is. */
  lemma RequestShape(lang: Language, sent: string)
    ensures '\n' !in sent ==> '\n' !in Request(lang, sent)
    ensures var r := Request(lang, sent); r != [] && !IsSpace(r[0]) && !IsSpace(r[|r| - 1])
  {
    RequestParts(lang);
    var head, tail := RequestHead(lang), RequestTail(lang);
    var r := Request(lang, sent);
    assert r[0] == head[0];
    assert r[|r| - 1] == tail[|tail| - 1] == ':';
  }

  /** The sentence inside a request, when `text` has the request's shape. */
  function Unwrap(lang: Language, text: string): (r: Option<string>)
    ensures r.Some? ==> Request(lang, r.value) == text
  {
    var head, tail := RequestHead(lang), RequestTail(lang);
    if |text| >= |head| + |tail| && text[..|head|] == head && text[|text| - |tail|..] == tail
    then
      var sent := text[|head|..|text| - |tail|];
      assert text == head + sent + tail;
      Some(sent)
    else None
  }

  /** A request determines its sentence. */
  lemma UnwrapRequest(lang: Language, sent: string)
    ensures Unwrap(lang, Request(lang, sent)) == Some(sent)
  {
    var text := Request(lang, sent);
    var head, tail := RequestHead(lang), RequestTail(lang);
    assert text[..|head|] == head;
    assert text[|text| - |tail|..] == tail;
    assert text[|head|..|text| - |tail|] == sent;
  }

  /** The sentinel a denoising encoder-decoder model is prompted with. */
  const Sentinel := " <extra_id_0>"

  /** The target input of `create_prompts` for one test sentence. */
  function TargetInput(lang: Language, workflow: string, sent: string): string {
    Request(lang, Strip(sent)) + (if workflow == "seq2seq" then Sentinel else "")
  }

  /** A target input ends with the sentinel exactly for the seq2seq workflow. */
  lemma TargetInputSentinel(lang: Language, workflow: string, sent: string)
    ensures EndsWith(TargetInput(lang, workflow, sent), Sentinel) <==> workflow == "seq2seq"
  {
    var req := Request(lang, Strip(sent));
    var t := TargetInput(lang, workflow, sent);
    if workflow == "seq2seq" {
      assert t == req + Sentinel;
      assert t[|t| - |Sentinel|..] == Sentinel;
    } else {
      assert t == req;
      RequestShape(lang, Strip(sent));
      if |t| >= |Sentinel| {
        assert t[|t| - 1] == ':' by {
          RequestParts(lang);
          var tail := RequestTail(lang);
          assert t[|t| - 1] == tail[|tail| - 1];
        }
        assert Sentinel[|Sentinel| - 1] == '>';
        assert t[|t| - |Sentinel|..][|Sentinel| - 1] == t[|t| - 1];
      }
    }
  }

  /** Without the sentinel, a target input is the request for the stripped sentence. */
  lemma TargetInputBody(lang: Language, workflow: string, sent: string)
    ensures var t := TargetInput(lang, workflow, sent);
      var body := if workflow == "seq2seq" then t[..|t| - |Sentinel|] else t;
      Unwrap(lang, body) == Some(Strip(sent))
  {
    var req := Request(lang, Strip(sent));
    var t := TargetInput(lang, workflow, sent);
    var body := if workflow == "seq2seq" then t[..|t| - |Sentinel|] else t;
    assert body == req by {
      if workflow == "seq2seq" {
        assert t == req + Sentinel;
      }
    }
    UnwrapRequest(lang, Strip(sent));
  }

  // ---------------------------------------------------------------- examples and instructions

  /** An example pair of `create_prompts`: the request, the stripped rewrite and the end-of-sequence marker. */
  function ExampleEntry(lang: Language, src: string, tgt: string): string {
    Request(lang, Strip(src)) + " " + Strip(tgt) + "</s>"
  }

  /** An example pair is one line, ends with "</s>" and opens with the request for its source. */
  lemma ExampleEntryShape(lang: Language, src: string, tgt: string)
    ensures EndsWith(ExampleEntry(lang, src, tgt), "</s>")
    ensures Request(lang, Strip(src)) + " " <= ExampleEntry(lang, src, tgt)
    ensures '\n' !in src && '\n' !in tgt ==> '\n' !in ExampleEntry(lang, src, tgt)
  {
    var e := ExampleEntry(lang, src, tgt);
    assert e[|e| - 4..] == "</s>";
    if '\n' !in src && '\n' !in tgt {
      StripKeepsOut(src, '\n');
      StripKeepsOut(tgt, '\n');
      RequestShape(lang, Strip(src));
    }
  }

  /**
   * The rewriting instruction that opens an instructed prompt. The text is kept in
   * short phrases: the verifier reasons about a string literal at a cost that
   * grows with the square of its length.
   */
  function Instruction(lang: Language): string {
    match lang
    case En =>
      "Rewrite the following " + "Italian sentence by " + "replacing masculine "
      + "and feminine endings " + "with a schwa (\U{0259}) " + "for human entities."
    case It =>
      "Riscrivi la seguente " + "frase italiana " + "utilizzando uno "
      + "schwa (\U{0259}) al posto " + "delle desinenze " + "maschili e femminili "
      + "per i referenti umani."
  }

  /**
   * The rewriting instruction is a single line, in both languages. Each
   * helper below checks two phrases: a literal costs the verifier more than
   * linearly in its length, so the phrases are checked a pair at a time.
   */
  lemma InstructionSingleLine(lang: Language)
    ensures '\n' !in Instruction(lang)
  {
    match lang
    case En =>
      PhrasesSingleLine1();
      PhrasesSingleLine2();
      PhrasesSingleLine3();
    case It =>
      PhrasesSingleLine4();
      PhrasesSingleLine5();
      PhrasesSingleLine6();
      PhrasesSingleLine7();
  }

  lemma PhrasesSingleLine1()
    ensures '\n' !in "Rewrite the following " && '\n' !in "Italian sentence by "
  {
  }

  lemma PhrasesSingleLine2()
    ensures '\n' !in "replacing masculine " && '\n' !in "and feminine endings "
  {
  }

  lemma PhrasesSingleLine3()
    ensures '\n' !in "with a schwa (\U{0259}) " && '\n' !in "for human entities."
  {
  }

  lemma PhrasesSingleLine4()
    ensures '\n' !in "Riscrivi la seguente " && '\n' !in "frase italiana "
  {
  }

  lemma PhrasesSingleLine5()
    ensures '\n' !in "utilizzando uno " && '\n' !in "schwa (\U{0259}) al posto "
  {
  }

  lemma PhrasesSingleLine6()
    ensures '\n' !in "delle desinenze " && '\n' !in "maschili e femminili "
  {
  }

  lemma PhrasesSingleLine7()
    ensures '\n' !in "per i referenti umani."
  {
  }

  /** A text opened by the rewriting instruction on a line of its own. */
  function Instructed(lang: Language, body: string): string {
    Instruction(lang) + "\n" + body
  }

  /**
   * The description is exactly the first line of an instructed text, and the
   * text after that line is the body, unchanged.
   */
  lemma InstructedLines(lang: Language, body: string)
    ensures Split(Instructed(lang, body), '\n') == [Instruction(lang)] + Split(body, '\n')
    ensures Instructed(lang, body)[|Instruction(lang)| + 1..] == body
  {
    InstructionSingleLine(lang);
    SplitAfterSegment(Instruction(lang), body, '\n');
  }

  // ---------------------------------------------------------------- chat turns

  /**
   * The chat request for one sentence: the English request of `create_prompts`
   * followed by one space, which the chat turn keeps.
   */
  function ChatRequest(sent: string): string {
    Request(En, Strip(sent)) + " "
  }

  /** The rewrite of a chat example, in angle brackets. */
  function ChatTarget(tgt: string): string {
    "<" + Strip(tgt) + ">"
  }

  /** Stripping a chat request drops exactly its trailing space. */
  lemma StripChatRequest(sent: string)
    ensures Strip(ChatRequest(sent)) == Request(En, Strip(sent))
  {
    var m := Request(En, Strip(sent));
    RequestShape(En, Strip(sent));
    assert ChatRequest(sent) == [] + m + " ";
    StripFrame([], m, " ");
  }

  /** A chat rewrite has no surrounding space, so stripping it changes nothing. */
  lemma StripChatTarget(tgt: string)
    ensures Strip(ChatTarget(tgt)) == ChatTarget(tgt)
  {
    var m := ChatTarget(tgt);
    assert m[0] == '<' && m[|m| - 1] == '>';
    assert m == [] + m + [];
    StripFrame([], m, []);
  }

  /** Chat turns built from single-line data are single lines. */
  lemma ChatTurnsSingleLine(sent: string, tgt: string)
    requires '\n' !in sent && '\n' !in tgt
    ensures '\n' !in ChatRequest(sent) && '\n' !in ChatTarget(tgt)
  {
    StripKeepsOut(sent, '\n');
    StripKeepsOut(tgt, '\n');
    StripChatRequest(sent);
    RequestShape(En, Strip(sent));
    assert '\n' !in " ";
  }
}
