/**
 * The data-handling side of scripts/prompt_rewriter.py: balancing Neo-GATE by
 * gender, building k-shot and zero-shot prompts and chat messages, trimming a
 * decoded output to its last line, truncating examples to a number of words,
 * and naming a run. Sampling is a caller-supplied list of distinct positions
 * per request; the model calls themselves are not part of this module.
 */
module PromptRewriter {
  import opened Wrappers
  import opened Text
  import opened Seqs
  import opened PromptTemplates

  /** The exceptions the Python code raises on the paths modelled here. */
  datatype PromptError =
    | UnsupportedLanguage   // a template is read before assignment: the language is neither "en" nor "it"
    | SampleSizeOutOfRange  // `random.sample` with a negative k or more than the pool holds
    | MissingModelName      // the model path has no component after the first "/"

  // ================================================================ Neo-GATE

  /** A Neo-GATE row: its masculine and feminine references and its other columns. */
  datatype NeoGateRow<R> = NeoGateRow(refM: string, refF: string, other: R)

  /** A row with a single reference and the gender of that reference. */
  datatype GenderedRow<R> = GenderedRow(ref: string, gender: string, other: R)

  function AsMasculine<R>(row: NeoGateRow<R>): GenderedRow<R> {
    GenderedRow(row.refM, "M", row.other)
  }

  function AsFeminine<R>(row: NeoGateRow<R>): GenderedRow<R> {
    GenderedRow(row.refF, "F", row.other)
  }

  /**
   * `balance_neogate`: rows keep their order; the first n/2 rows (integer
   * division) keep their masculine reference, the others their feminine one.
   * No row is lost or added, which is what the function's assertion checks.
   */
  function BalanceNeoGate<R>(rows: seq<NeoGateRow<R>>): (r: seq<GenderedRow<R>>)
    ensures |r| == |rows|
    ensures forall i :: 0 <= i < |rows| ==>
      r[i] == if i < |rows| / 2 then AsMasculine(rows[i]) else AsFeminine(rows[i])
  {
    var splitpoint := |rows| / 2;
    MapSeq(AsMasculine, rows[..splitpoint]) + MapSeq(AsFeminine, rows[splitpoint..])
  }

  predicate IsMasculine<R>(row: GenderedRow<R>) { row.gender == "M" }
  predicate IsFeminine<R>(row: GenderedRow<R>) { row.gender == "F" }

  /** Of n balanced rows, n/2 are masculine and n - n/2 feminine. */
  lemma NeoGateGenderCounts<R>(rows: seq<NeoGateRow<R>>)
    ensures Count(IsMasculine, BalanceNeoGate(rows)) == |rows| / 2
    ensures Count(IsFeminine, BalanceNeoGate(rows)) == |rows| - |rows| / 2
  {
    var r := BalanceNeoGate(rows);
    assert forall i :: 0 <= i < |r| ==>
      if i < |rows| / 2 then IsMasculine(r[i]) && !IsFeminine(r[i]) else IsFeminine(r[i]) && !IsMasculine(r[i]);
    CountSplit(IsMasculine, IsFeminine, r, |rows| / 2);
  }

  // ================================================================ sampling

  /** `draw` lists `k` distinct positions of a pool of `n` entries: one outcome of `random.sample`. */
  predicate IsSample(draw: seq<nat>, k: int, n: nat) {
    |draw| == k && AllBelow(draw, n) && forall i, j :: 0 <= i < j < |draw| ==> draw[i] != draw[j]
  }

  /** Whenever sampling `k` of `n` can succeed, every request has an outcome. */
  predicate ValidDraws(draws: seq<seq<nat>>, k: int, n: nat) {
    0 <= k <= n ==> forall i :: 0 <= i < |draws| ==> IsSample(draws[i], k, n)
  }

  /** `list(zip(a, b))`: as many pairs as the shorter list has entries. */
  function Zip(a: seq<string>, b: seq<string>): (r: seq<(string, string)>)
    ensures |r| == if |a| <= |b| then |a| else |b|
    ensures forall i :: 0 <= i < |r| ==> r[i] == (a[i], b[i])
  {
    var n := if |a| <= |b| then |a| else |b|;
    seq(n, i requires 0 <= i < n => (a[i], b[i]))
  }

  // ================================================================ the loops the prompt builders share

  /**
   * The loop of `create_prompts` and `add_instructions`: every item is written
   * into the template of the prompt language. For a language other than "en"
   * and "it" no template is ever assigned, so the first item raises.
   */
  method FillTemplates<T>(lang: Option<Language>, template: (Language, T) -> string, items: seq<T>)
    returns (r: Result<seq<string>, PromptError>)
    ensures r.Err? <==> lang.None? && |items| > 0
    ensures r.Err? ==> r.error == UnsupportedLanguage
    ensures r.Ok? ==> |r.value| == |items|
    ensures r.Ok? ==> forall i :: 0 <= i < |items| ==> lang.Some? && r.value[i] == template(lang.value, items[i])
  {
    var filled := [];
    for i := 0 to |items|
      invariant |filled| == i && (i > 0 ==> lang.Some?)
      invariant lang.Some? ==> forall j :: 0 <= j < i ==> filled[j] == template(lang.value, items[j])
    {
      if lang.None? {
        return Err(UnsupportedLanguage);
      }
      filled := filled + [template(lang.value, items[i])];
    }
    return Ok(filled);
  }

  /** A loop that appends `f` of every item, in order: the list-building loops of `create_messages` and `zeroshot_prompt`. */
  method MapEach<T, U>(f: T -> U, items: seq<T>) returns (r: seq<U>)
    ensures r == MapSeq(f, items)
  {
    r := [];
    for i := 0 to |items|
      invariant |r| == i && forall j :: 0 <= j < i ==> r[j] == f(items[j])
    {
      r := r + [f(items[i])];
    }
  }

  /**
   * The sampling loop of `create_prompts` and `create_messages`: for every
   * request, `random.sample(pool, k)` (here the caller's draw for it) and the
   * value built from the sampled entries and the request. Sampling raises for
   * a negative k or a k above the pool size, at the first request.
   */
  method SampleBatches<T, R, U>(pool: seq<T>, k: int, requests: seq<R>, draws: seq<seq<nat>>,
                                build: (seq<T>, R) -> U)
    returns (r: Result<seq<U>, PromptError>)
    requires |draws| == |requests|
    requires ValidDraws(draws, k, |pool|)
    ensures r.Err? <==> |requests| > 0 && !(0 <= k <= |pool|)
    ensures r.Err? ==> r.error == SampleSizeOutOfRange
    ensures r.Ok? ==> |r.value| == |requests|
    ensures r.Ok? ==> forall i :: 0 <= i < |requests| ==>
      IsSample(draws[i], k, |pool|) && r.value[i] == build(Permute(pool, draws[i]), requests[i])
  {
    var batches := [];
    for i := 0 to |requests|
      invariant |batches| == i
      invariant i > 0 ==> 0 <= k <= |pool|
      invariant forall j :: 0 <= j < i ==>
        IsSample(draws[j], k, |pool|) && batches[j] == build(Permute(pool, draws[j]), requests[j])
    {
      if !(0 <= k <= |pool|) {
        return Err(SampleSizeOutOfRange);
      }
      var batch := Permute(pool, draws[i]);
      batches := batches + [build(batch, requests[i])];
    }
    return Ok(batches);
  }

  // ================================================================ k-shot prompts

  /** The example pool of `create_prompts`: one single-line example per training pair. */
  function ExamplePool(lang: Language, pairs: seq<(string, string)>): (r: seq<string>)
    ensures |r| == |pairs|
    ensures forall j :: 0 <= j < |pairs| ==> r[j] == ExampleEntry(lang, pairs[j].0, pairs[j].1)
  {
    seq(|pairs|, j requires 0 <= j < |pairs| => ExampleEntry(lang, pairs[j].0, pairs[j].1))
  }

  /** The example batches and the requests, one of each per test sentence. */
  datatype PromptSet = PromptSet(exampleBatches: seq<string>, targetInputs: seq<string>)

  /** When a template loop of `create_prompts` raises: the language has no templates and a loop body runs. */
  predicate LanguageFails(language: string, nPairs: nat, nTest: nat) {
    ParseLanguage(language).None? && (nTest > 0 || nPairs > 0)
  }

  /**
   * `create_prompts`: one request per test sentence, then one example per
   * training pair, then for every request its sampled examples joined by
   * newlines.
   */
  method CreatePrompts(language: string, workflow: string, trainSources: seq<string>,
                       trainTargets: seq<string>, test: seq<string>, k: int, draws: seq<seq<nat>>)
    returns (r: Result<PromptSet, PromptError>)
    requires |draws| == |test|
    requires ValidDraws(draws, k, |Zip(trainSources, trainTargets)|)
    ensures r.Err? <==> LanguageFails(language, |Zip(trainSources, trainTargets)|, |test|)
                        || (|test| > 0 && !(0 <= k <= |Zip(trainSources, trainTargets)|))
    ensures r.Err? ==> r.error == if LanguageFails(language, |Zip(trainSources, trainTargets)|, |test|)
                                  then UnsupportedLanguage else SampleSizeOutOfRange
    ensures r.Ok? ==> |r.value.targetInputs| == |test| && |r.value.exampleBatches| == |test|
    ensures r.Ok? ==> forall i :: 0 <= i < |test| ==>
      ParseLanguage(language).Some?
      && r.value.targetInputs[i] == TargetInput(ParseLanguage(language).value, workflow, test[i])
      && IsSample(draws[i], k, |Zip(trainSources, trainTargets)|)
      && r.value.exampleBatches[i]
         == Join(Permute(ExamplePool(ParseLanguage(language).value, Zip(trainSources, trainTargets)), draws[i]), '\n')
  {
    var lang := ParseLanguage(language);
    var targetInputs := FillTemplates(lang, (l: Language, sent: string) => TargetInput(l, workflow, sent), test);
    if targetInputs.Err? {
      return Err(targetInputs.error);
    }
    var trainPairs := Zip(trainSources, trainTargets);
    var trainExamples := FillTemplates(lang, (l: Language, pair: (string, string)) => ExampleEntry(l, pair.0, pair.1),
                                       trainPairs);
    if trainExamples.Err? {
      return Err(trainExamples.error);
    }
    if lang.Some? {
      assert trainExamples.value == ExamplePool(lang.value, trainPairs);
    }
    var exampleBatches := SampleBatches(trainExamples.value, k, targetInputs.value, draws,
                                        (batch: seq<string>, request: string) => Join(batch, '\n'));
    if exampleBatches.Err? {
      return Err(exampleBatches.error);
    }
    return Ok(PromptSet(exampleBatches.value, targetInputs.value));
  }

  /**
   * With single-line training data, an example batch of k >= 1 examples splits
   * back into k lines: line m is the example of the pair at the m-th sampled
   * position, and the k positions are distinct.
   */
  lemma ExampleBatchLines(lang: Language, pairs: seq<(string, string)>, draw: seq<nat>, k: int)
    requires k >= 1 && IsSample(draw, k, |pairs|)
    requires forall j :: 0 <= j < |pairs| ==> '\n' !in pairs[j].0 && '\n' !in pairs[j].1
    ensures var lines := Split(Join(Permute(ExamplePool(lang, pairs), draw), '\n'), '\n');
      |lines| == k
      && (forall m :: 0 <= m < k ==> lines[m] == ExampleEntry(lang, pairs[draw[m]].0, pairs[draw[m]].1))
      && (forall m, m' :: 0 <= m < m' < k ==> draw[m] != draw[m'])
  {
    var batch := Permute(ExamplePool(lang, pairs), draw);
    forall m | 0 <= m < |batch| ensures '\n' !in batch[m] {
      ExampleEntryShape(lang, pairs[draw[m]].0, pairs[draw[m]].1);
    }
    SplitJoin(batch, '\n');
  }

  /** The prompt `kshot_prompt` sends to a decoder-only model: the example batch, a newline, the request. */
  function KShotPrompt(exampleSet: string, targetInput: string): string {
    exampleSet + "\n" + targetInput
  }

  /**
   * When the examples and the request are single lines, the lines of the
   * prompt are the examples followed by the request, so trimming an output that
   * echoes the whole prompt gives back exactly the request.
   */
  lemma KShotPromptLines(examples: seq<string>, targetInput: string)
    requires |examples| >= 1 && forall m :: 0 <= m < |examples| ==> '\n' !in examples[m]
    requires '\n' !in targetInput
    ensures Split(KShotPrompt(Join(examples, '\n'), targetInput), '\n') == examples + [targetInput]
    ensures LastSegment(KShotPrompt(Join(examples, '\n'), targetInput)) == targetInput
  {
    var lines := examples + [targetInput];
    JoinLast(lines, '\n');
    assert lines[..|lines| - 1] == examples;
    assert KShotPrompt(Join(examples, '\n'), targetInput) == Join(lines, '\n');
    SplitJoin(lines, '\n');
    LastSegmentOfLines(lines);
  }

  /**
   * The decoder-only prompt for one request of `create_prompts`, with
   * single-line data: k lines holding the sampled examples in order, then the
   * request line, which is also what trimming an echoed prompt keeps.
   */
  lemma KShotPromptOfBatch(lang: Language, pairs: seq<(string, string)>, draw: seq<nat>, k: int, sent: string)
    requires k >= 1 && IsSample(draw, k, |pairs|)
    requires forall j :: 0 <= j < |pairs| ==> '\n' !in pairs[j].0 && '\n' !in pairs[j].1
    requires '\n' !in sent
    ensures var prompt := KShotPrompt(Join(Permute(ExamplePool(lang, pairs), draw), '\n'), TargetInput(lang, "llm", sent));
      var lines := Split(prompt, '\n');
      |lines| == k + 1
      && (forall m :: 0 <= m < k ==> lines[m] == ExampleEntry(lang, pairs[draw[m]].0, pairs[draw[m]].1))
      && lines[k] == TargetInput(lang, "llm", sent)
      && LastSegment(prompt) == TargetInput(lang, "llm", sent)
  {
    var batch := Permute(ExamplePool(lang, pairs), draw);
    forall m | 0 <= m < |batch| ensures '\n' !in batch[m] {
      ExampleEntryShape(lang, pairs[draw[m]].0, pairs[draw[m]].1);
    }
    StripKeepsOut(sent, '\n');
    RequestShape(lang, Strip(sent));
    KShotPromptLines(batch, TargetInput(lang, "llm", sent));
  }

  // ================================================================ chat messages

  datatype Role = User | Assistant

  /** One turn of a chat prompt. */
  datatype Message = Message(role: Role, content: string)

  /** The example pairs of `create_messages`: the chat request of the source and the bracketed rewrite. */
  function ChatPool(pairs: seq<(string, string)>): (r: seq<(string, string)>)
    ensures |r| == |pairs|
    ensures forall j :: 0 <= j < |pairs| ==> r[j] == (ChatRequest(pairs[j].0), ChatTarget(pairs[j].1))
  {
    seq(|pairs|, j requires 0 <= j < |pairs| => (ChatRequest(pairs[j].0), ChatTarget(pairs[j].1)))
  }

  /** The inner loop of `create_messages`: the stripped first halves of the sampled pairs. */
  function StrippedSources(batch: seq<(string, string)>): (r: seq<string>)
    ensures |r| == |batch| && forall m :: 0 <= m < |batch| ==> r[m] == Strip(batch[m].0)
  {
    seq(|batch|, m requires 0 <= m < |batch| => Strip(batch[m].0))
  }

  /** The inner loop of `create_messages`: the stripped second halves of the sampled pairs. */
  function StrippedTargets(batch: seq<(string, string)>): (r: seq<string>)
    ensures |r| == |batch| && forall m :: 0 <= m < |batch| ==> r[m] == Strip(batch[m].1)
  {
    seq(|batch|, m requires 0 <= m < |batch| => Strip(batch[m].1))
  }

  /**
   * The three turns of a k-shot chat prompt: the description followed by the
   * stripped example requests, the stripped example rewrites, then the request.
   */
  function ChatTurns(batch: seq<(string, string)>, request: string): seq<Message> {
    [Message(User, Instructed(En, Join(StrippedSources(batch), '\n'))),
     Message(Assistant, Join(StrippedTargets(batch), '\n')),
     Message(User, request)]
  }

  /** The single turn of a zero-shot chat prompt. */
  function ZeroShotTurn(request: string): seq<Message> {
    [Message(User, Instructed(En, request))]
  }

  /** An example pair of `create_messages`. */
  function ChatExample(pair: (string, string)): (string, string) {
    (ChatRequest(pair.0), ChatTarget(pair.1))
  }

  /**
   * `create_messages`: always English. With k = 0 every request is one user
   * turn opened by the description; otherwise every request gets the three
   * turns of `ChatTurns` over its sampled pairs.
   */
  method CreateMessages(trainSources: seq<string>, trainTargets: seq<string>, test: seq<string>,
                        k: int, draws: seq<seq<nat>>)
    returns (r: Result<seq<seq<Message>>, PromptError>)
    requires |draws| == |test|
    requires k != 0 ==> ValidDraws(draws, k, |Zip(trainSources, trainTargets)|)
    ensures r.Err? <==> k != 0 && |test| > 0 && !(0 <= k <= |Zip(trainSources, trainTargets)|)
    ensures r.Err? ==> r.error == SampleSizeOutOfRange
    ensures r.Ok? ==> |r.value| == |test|
    ensures r.Ok? && k == 0 ==> forall i :: 0 <= i < |test| ==>
      r.value[i] == [Message(User, Instructed(En, ChatRequest(test[i])))]
    ensures r.Ok? && k != 0 ==> forall i :: 0 <= i < |test| ==>
      IsSample(draws[i], k, |Zip(trainSources, trainTargets)|)
      && r.value[i] == ChatTurns(Permute(ChatPool(Zip(trainSources, trainTargets)), draws[i]), ChatRequest(test[i]))
  {
    var targetInputs := MapEach(ChatRequest, test);
    if k == 0 {
      var messages := MapEach(ZeroShotTurn, targetInputs);
      return Ok(messages);
    }
    var train := Zip(trainSources, trainTargets);
    var examplePairs := MapEach(ChatExample, train);
    assert examplePairs == ChatPool(train);
    r := SampleBatches(examplePairs, k, targetInputs, draws, ChatTurns);
  }

  /**
   * The k-shot chat layout, for single-line data and k >= 1: turns are user,
   * assistant, user; the first turn is the description line followed by k
   * lines, each the English request for a sampled source with the trailing
   * space gone; the assistant turn has k lines, line m the bracketed rewrite
   * of the same pair as line m of the first turn; the last turn is the bare
   * request, trailing space kept.
   */
  lemma ChatTurnsLayout(pairs: seq<(string, string)>, draw: seq<nat>, k: int, sent: string)
    requires k >= 1 && IsSample(draw, k, |pairs|)
    requires forall j :: 0 <= j < |pairs| ==> '\n' !in pairs[j].0 && '\n' !in pairs[j].1
    ensures var turns := ChatTurns(Permute(ChatPool(pairs), draw), ChatRequest(sent));
      var userLines := Split(turns[0].content, '\n');
      var assistantLines := Split(turns[1].content, '\n');
      |turns| == 3
      && turns[0].role == User && turns[1].role == Assistant && turns[2].role == User
      && |userLines| == k + 1 && userLines[0] == Instruction(En)
      && |assistantLines| == k
      && (forall m :: 0 <= m < k ==>
            userLines[m + 1] == Request(En, Strip(pairs[draw[m]].0))
            && assistantLines[m] == ChatTarget(pairs[draw[m]].1))
      && turns[2].content == ChatRequest(sent)
  {
    var batch := Permute(ChatPool(pairs), draw);
    var srcBatch := StrippedSources(batch);
    var tgtBatch := StrippedTargets(batch);
    forall m | 0 <= m < k
      ensures srcBatch[m] == Request(En, Strip(pairs[draw[m]].0)) && '\n' !in srcBatch[m]
      ensures tgtBatch[m] == ChatTarget(pairs[draw[m]].1) && '\n' !in tgtBatch[m]
    {
      StripChatRequest(pairs[draw[m]].0);
      StripChatTarget(pairs[draw[m]].1);
      ChatTurnsSingleLine(pairs[draw[m]].0, pairs[draw[m]].1);
    }
    SplitJoin(srcBatch, '\n');
    SplitJoin(tgtBatch, '\n');
    InstructedLines(En, Join(srcBatch, '\n'));
  }

  /** A zero-shot chat turn is the description line and the request line. */
  lemma ZeroShotChatLines(sent: string)
    requires '\n' !in sent
    ensures Split(Instructed(En, ChatRequest(sent)), '\n') == [Instruction(En), ChatRequest(sent)]
  {
    ChatTurnsSingleLine(sent, "");
    InstructionSingleLine(En);
    SplitTwo(Instruction(En), ChatRequest(sent), '\n');
  }

  // ================================================================ instructions and zero-shot prompts

  /** `add_instructions`: every batch opened by the description in the prompt language. */
  method AddInstructions(language: string, examples: seq<string>) returns (r: Result<seq<string>, PromptError>)
    ensures r.Err? <==> ParseLanguage(language).None? && |examples| > 0
    ensures r.Err? ==> r.error == UnsupportedLanguage
    ensures r.Ok? ==> |r.value| == |examples|
    ensures r.Ok? ==> forall i :: 0 <= i < |examples| ==>
      ParseLanguage(language).Some? && r.value[i] == Instructed(ParseLanguage(language).value, examples[i])
  {
    r := FillTemplates(ParseLanguage(language), Instructed, examples);
  }

  /**
   * The prompts `zeroshot_prompt` sends: for "en" or "it", one per test
   * sentence, the English description followed by the request in the chosen
   * language; any other language builds no request and so sends nothing.
   */
  method ZeroShotPrompts(language: string, test: seq<string>) returns (prompts: seq<string>)
    ensures ParseLanguage(language).None? ==> prompts == []
    ensures ParseLanguage(language).Some? ==> |prompts| == |test|
    ensures ParseLanguage(language).Some? ==> forall i :: 0 <= i < |test| ==>
      prompts[i] == Instructed(En, Request(ParseLanguage(language).value, Strip(test[i])))
  {
    var lang := ParseLanguage(language);
    var targetInputs := ZeroShotRequests(lang, test);
    prompts := MapEach((request: string) => Instructed(En, request), targetInputs);
  }

  /** The first loop of `zeroshot_prompt`: a request per test sentence, and none for another language. */
  method ZeroShotRequests(lang: Option<Language>, test: seq<string>) returns (targetInputs: seq<string>)
    ensures lang.None? ==> targetInputs == []
    ensures lang.Some? ==> |targetInputs| == |test|
    ensures lang.Some? ==> forall i :: 0 <= i < |test| ==> targetInputs[i] == Request(lang.value, Strip(test[i]))
  {
    targetInputs := [];
    for i := 0 to |test|
      invariant |targetInputs| == if lang.Some? then i else 0
      invariant lang.Some? ==> forall j :: 0 <= j < i ==> targetInputs[j] == Request(lang.value, Strip(test[j]))
    {
      if lang.Some? {
        targetInputs := targetInputs + [Request(lang.value, Strip(test[i]))];
      }
    }
  }

  /** Everything after the description line of a zero-shot prompt is a request that gives back the stripped sentence. */
  lemma ZeroShotPromptSentence(lang: Language, sent: string)
    ensures Unwrap(lang, Instructed(En, Request(lang, Strip(sent)))[|Instruction(En)| + 1..]) == Some(Strip(sent))
  {
    InstructedLines(En, Request(lang, Strip(sent)));
    UnwrapRequest(lang, Strip(sent));
  }

  // ================================================================ post-processing

  /**
   * `text.split("\n")[-1]`: the longest newline-free suffix of the decoded
   * text; it is the whole text or is preceded by a newline.
   */
  function LastSegment(text: string): (r: string)
    ensures '\n' !in r
    ensures |r| <= |text| && text[|text| - |r|..] == r
    ensures |r| < |text| ==> text[|text| - |r| - 1] == '\n'
  {
    var parts := Split(text, '\n');
    LastPieceFrame(text, parts);
    parts[|parts| - 1]
  }

  /** How the last piece of `split` sits at the end of the text. */
  lemma LastPieceFrame(text: string, parts: seq<string>)
    requires parts == Split(text, '\n')
    ensures var last := parts[|parts| - 1];
      |last| <= |text| && text[|text| - |last|..] == last
      && (|last| < |text| ==> text[|text| - |last| - 1] == '\n')
  {
    var last := parts[|parts| - 1];
    if |parts| >= 2 {
      JoinLast(parts, '\n');
      var front := Join(parts[..|parts| - 1], '\n') + ['\n'];
      assert text == front + last;
    } else {
      assert parts == [parts[0]];
    }
  }

  /** The three facts above pin the segment down: no other suffix has them. */
  lemma LastSegmentUnique(text: string, r': string)
    requires '\n' !in r'
    requires |r'| <= |text| && text[|text| - |r'|..] == r'
    requires |r'| < |text| ==> text[|text| - |r'| - 1] == '\n'
    ensures r' == LastSegment(text)
  {
    var r := LastSegment(text);
    assert |r| == |r'|;
  }

  /** Trimming a text made of lines keeps exactly its last line. */
  lemma LastSegmentOfLines(lines: seq<string>)
    requires |lines| >= 1 && forall j :: 0 <= j < |lines| ==> '\n' !in lines[j]
    ensures LastSegment(Join(lines, '\n')) == lines[|lines| - 1]
  {
    var text := Join(lines, '\n');
    var last := lines[|lines| - 1];
    if |lines| >= 2 {
      JoinLast(lines, '\n');
      assert text == Join(lines[..|lines| - 1], '\n') + ['\n'] + last;
    }
    LastSegmentUnique(text, last);
  }

  /** Python's `xs[:n]` on a list of `m` items keeps this many items. */
  function SliceEnd(n: int, m: nat): (r: nat)
    ensures r <= m
    ensures n >= 0 ==> r == if n <= m then n else m
    ensures n < 0 ==> r == if m + n >= 0 then m + n else 0
  {
    if n >= 0 then (if n <= m then n else m)
    else if m + n >= 0 then m + n else 0
  }

  /**
   * `" ".join(text.split(" ")[:n])`: a prefix of the text made of its first
   * words. For n >= 1 those are the first min(n, #words) words; for n < 0 all
   * but the last |n| words; no word at all for n = 0 or n <= -#words.
   */
  function TruncateWords(text: string, n: int): (r: string)
    ensures r <= text
    ensures n >= 1 ==>
      var words := Split(text, ' ');
      Split(r, ' ') == words[..if n <= |words| then n else |words|]
    ensures n < 0 && |Split(text, ' ')| + n >= 1 ==>
      var words := Split(text, ' ');
      Split(r, ' ') == words[..|words| + n]
    ensures n == 0 || |Split(text, ' ')| + n <= 0 ==> r == ""
  {
    var words := Split(text, ' ');
    var keep := SliceEnd(n, |words|);
    JoinTakeIsPrefix(words, keep, ' ');
    assert words[..|words|] == words;
    if keep >= 1 then
      SplitJoin(words[..keep], ' ');
      Join(words[..keep], ' ')
    else
      Join(words[..keep], ' ')
  }

  // ================================================================ run name

  /** Which prompting path `main` takes. */
  datatype Route = ChatRoute | ZeroShotRoute | KShotRoute(instructions: bool)

  function ChooseRoute(chat: bool, k: int, instructions: bool): Route {
    if chat then ChatRoute
    else if k == 0 then ZeroShotRoute
    else KShotRoute(instructions)
  }

  /** The prompt language when none is given: Italian exactly when "it" occurs in the model name. */
  function ChosenLanguage(modelName: string, lang: Option<string>): (r: string)
    ensures lang.Some? ==> r == lang.value
    ensures lang.None? ==> (r == "it" <==> Contains(modelName, "it")) && (r == "it" || r == "en")
  {
    if lang.None? then (if Contains(modelName, "it") then "it" else "en")
    else lang.value
  }

  /** The precision part of the run name; any other quantization adds nothing. */
  function QuantizationTag(quantization: Option<int>): (r: string)
    ensures r == "_full" <==> quantization.None?
    ensures r == "_4bit" <==> quantization == Some(4)
    ensures r == "_8bit" <==> quantization == Some(8)
    ensures r == "" <==> quantization.Some? && quantization.value != 4 && quantization.value != 8
  {
    match quantization
    case None => "_full"
    case Some(q) => if q == 4 then "_4bit" else if q == 8 then "_8bit" else ""
  }

  /** The name under which a run's predictions are stored. */
  function SaveModelName(modelName: string, language: string, quantization: Option<int>, k: int,
                         instructed: bool): string {
    modelName + "_" + language + QuantizationTag(quantization) + "_" + IntToString(k) + "shot"
    + (if instructed then "_instructions" else "")
  }

  /**
   * The run name of `main`, built one suffix at a time; the model name is the
   * second "/"-separated component of the model path.
   */
  method RunName(modelPath: string, lang: Option<string>, quantization: Option<int>, k: int,
                 chat: bool, instructions: bool)
    returns (r: Result<string, PromptError>)
    ensures r.Err? <==> |Split(modelPath, '/')| < 2
    ensures r.Err? ==> r.error == MissingModelName
    ensures r.Ok? ==>
      var modelName := Split(modelPath, '/')[1];
      r.value == SaveModelName(modelName, ChosenLanguage(modelName, lang), quantization, k,
                               ChooseRoute(chat, k, instructions) == KShotRoute(true))
  {
    var parts := Split(modelPath, '/');
    if |parts| < 2 {
      return Err(MissingModelName);
    }
    var modelName := parts[1];
    var language;
    if lang.None? {
      language := if Contains(modelName, "it") then "it" else "en";
    } else {
      language := lang.value;
    }
    var saveModelName := modelName + "_" + language;
    ghost var head := saveModelName;
    if quantization.Some? {
      if quantization.value == 4 {
        saveModelName := saveModelName + "_4bit";
      } else if quantization.value == 8 {
        saveModelName := saveModelName + "_8bit";
      } else {
        assert saveModelName == head + "";
      }
    } else {
      saveModelName := saveModelName + "_full";
    }
    assert saveModelName == head + QuantizationTag(quantization);
    saveModelName := saveModelName + "_" + IntToString(k) + "shot";
    ghost var base := saveModelName;
    if !chat && k != 0 && instructions {
      saveModelName := saveModelName + "_instructions";
    } else {
      assert saveModelName == base + "";
    }
    assert language == ChosenLanguage(modelName, lang);
    assert saveModelName == SaveModelName(modelName, language, quantization, k,
                                          ChooseRoute(chat, k, instructions) == KShotRoute(true));
    return Ok(saveModelName);
  }

  /** A run name opens with the model name and the language. */
  lemma SaveModelNamePrefix(modelName: string, language: string, quantization: Option<int>, k: int,
                            instructed: bool)
    ensures modelName + "_" + language <= SaveModelName(modelName, language, quantization, k, instructed)
  {
    var head := modelName + "_" + language;
    var n1 := head + QuantizationTag(quantization);
    var n2 := n1 + "_";
    var n3 := n2 + IntToString(k);
    var n4 := n3 + "shot";
    PrefixOfAppended(head, QuantizationTag(quantization));
    PrefixOfAppended(n1, "_");
    PrefixOfAppended(n2, IntToString(k));
    PrefixOfAppended(n3, "shot");
    PrefixOfAppended(n4, if instructed then "_instructions" else "");
  }

  /**
   * A run name ends with "_instructions" exactly for instructed k-shot runs,
   * and otherwise ends with the shot count followed by "shot".
   */
  lemma SaveModelNameSuffix(modelName: string, language: string, quantization: Option<int>, k: int,
                            instructed: bool)
    ensures EndsWith(SaveModelName(modelName, language, quantization, k, instructed), "_instructions") <==> instructed
    ensures !instructed ==> EndsWith(SaveModelName(modelName, language, quantization, k, instructed),
                                     "_" + IntToString(k) + "shot")
  {
    var front := modelName + "_" + language + QuantizationTag(quantization);
    var stem := front + "_" + IntToString(k);
    var base := stem + "shot";
    assert SaveModelName(modelName, language, quantization, k, instructed)
        == base + (if instructed then "_instructions" else "");
    if instructed {
      EndsWithAppended(base, "_instructions");
    } else {
      assert base + "" == base;
      EndsWithAppended3(front, "_", IntToString(k), "shot");
      EndsWithDistinctLast(stem, "shot", "_instructions");
    }
  }
}
