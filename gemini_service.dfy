/**
 * Practice-sentence generation: the API-key rule, the response schema, the
 * vocabulary string and prompt, and the case split that turns the outcome of
 * the model call into the sentences returned. The model call and `JSON.parse`
 * are parameters: `model` answers a prompt sent through a client, `parse`
 * reads a JSON text and fails with `None` where `JSON.parse` throws.
 */
module GeminiService {
  import opened Wrappers
  import JsStrings

  /** The language being learned. */
  datatype Language = English | Mandarin

  /** The language's name as written into the prompt. */
  function LanguageName(language: Language): string {
    match language
    case English => "English"
    case Mandarin => "Mandarin"
  }

  /** A vocabulary item (`SimpleVocab`). */
  datatype SimpleVocab = SimpleVocab(id: int, indonesian: string, english: string, mandarin: string, pinyin: string)

  /** A generated sentence (`AIGeneratedSentence`): one sentence in four renderings. */
  datatype Sentence = Sentence(indonesian: string, english: string, mandarin: string, pinyin: string)

  /** `process.env.API_KEY || ''`: an unset variable reads as the empty key. */
  function ApiKey(env: Option<string>): (key: string)
    ensures key == "" <==> env == None || env == Some("")
    ensures key != "" ==> env == Some(key)
  {
    match env
    case None => ""
    case Some(k) => if k == "" then "" else k
  }

  /** A Gemini client, built from the key. */
  datatype AIClient = AIClient(apiKey: string)

  /** `getAIClient()`: a client exactly when the key is non-empty. */
  function GetAIClient(apiKey: string): (client: Option<AIClient>)
    ensures client.Some? <==> apiKey != ""
    ensures client.Some? ==> client.value.apiKey == apiKey
  {
    if apiKey != "" then Some(AIClient(apiKey)) else None
  }

  /** The part of the response schema the SDK is given. */
  datatype SchemaType =
    | StringType
    | ObjectType(properties: seq<(string, SchemaType)>, required: seq<string>)
    | ArrayType(items: SchemaType)

  /** `sentenceSchema`: an array of objects with four string properties, all required. */
  const SentenceSchema: SchemaType :=
    ArrayType(ObjectType(
      [("indonesian", StringType), ("english", StringType), ("mandarin", StringType), ("pinyin", StringType)],
      ["indonesian", "english", "mandarin", "pinyin"]))

  /** The field names of `Sentence`, in declaration order. */
  const SentenceFields: seq<string> := ["indonesian", "english", "mandarin", "pinyin"]

  function PropertyNames(properties: seq<(string, SchemaType)>): (names: seq<string>)
    ensures |names| == |properties|
    ensures forall k :: 0 <= k < |properties| ==> names[k] == properties[k].0
  {
    if properties == [] then [] else [properties[0].0] + PropertyNames(properties[1..])
  }

  /** The schema requires exactly the properties it declares, which are the sentence's fields, all strings. */
  lemma SchemaRequiresEveryProperty()
    ensures SentenceSchema.ArrayType? && SentenceSchema.items.ObjectType?
    ensures SentenceSchema.items.required == PropertyNames(SentenceSchema.items.properties) == SentenceFields
    ensures forall p :: p in SentenceSchema.items.properties ==> p.1 == StringType
  {
    var props := SentenceSchema.items.properties;
    assert PropertyNames(props) == SentenceFields;
  }

  /** `v.indonesian (english|mandarin)`: one vocabulary entry of the prompt. */
  function VocabEntry(v: SimpleVocab, language: Language): string {
    v.indonesian + " (" + (if language == English then v.english else v.mandarin) + ")"
  }

  /** `vocab.map(v => ...)`: the entries of the vocabulary list, in order. */
  function VocabEntries(vocab: seq<SimpleVocab>, language: Language): (entries: seq<string>)
    ensures |entries| == |vocab|
    ensures forall k :: 0 <= k < |vocab| ==> entries[k] == VocabEntry(vocab[k], language)
  {
    if vocab == [] then [] else [VocabEntry(vocab[0], language)] + VocabEntries(vocab[1..], language)
  }

  /** `vocabString`: the entries joined by ", ". */
  function VocabString(vocab: seq<SimpleVocab>, language: Language): string {
    JsStrings.Join(VocabEntries(vocab, language), ", ")
  }

  /** The target of an entry is the English translation for English and the Mandarin one otherwise. */
  lemma VocabEntryTarget(v: SimpleVocab, language: Language)
    ensures language == English ==> VocabEntry(v, language) == v.indonesian + " (" + v.english + ")"
    ensures language == Mandarin ==> VocabEntry(v, language) == v.indonesian + " (" + v.mandarin + ")"
  {
  }

  /**
   * Layout of the vocabulary string: the `i`-th item's entry (`VocabEntries` gives
   * it as `VocabEntry(vocab[i], language)`) stands at its offset, is followed by ", "
   * unless it is the last, and the last entry ends the string.
   */
  lemma VocabStringLayout(vocab: seq<SimpleVocab>, language: Language, i: nat)
    requires i < |vocab|
    ensures JsStrings.PartInPlace(VocabString(vocab, language), VocabEntries(vocab, language), ", ", i)
  {
    JsStrings.JoinAt(VocabEntries(vocab, language), ", ", i);
  }

  /** An empty vocabulary is not rejected: it gives the empty vocabulary string. */
  lemma EmptyVocabularyString(language: Language)
    ensures VocabString([], language) == ""
  {
  }

  /** The number of sentences the prompt asks for. */
  const RequestedCount: nat := 3

  /** The line of the prompt that asks for the sentences. */
  const RequestLine: string := "Generate 3 simple, new example sentences."

  /** The request line asks for `RequestedCount` sentences. */
  lemma RequestLineCount()
    ensures RequestLine[9..10] == JsStrings.NumberToString(RequestedCount)
  {
    assert JsStrings.NumberToString(RequestedCount) == [JsStrings.DigitChar(3)];
    assert JsStrings.DigitChar(3) == '3';
    assert RequestLine[9] == '3';
  }

  const PromptOpening: string := "\n    You are a language teacher for an Indonesian speaker learning "
  const PromptVocabLead: string := ".\n    Based on this vocabulary list: "
  const PromptClosing: string := ".\n    " + RequestLine + PromptTail
  const PromptTail: string :=
    "\n    Each sentence should use at least one word from the vocabulary list."
    + "\n    Provide the sentence in Indonesian, English, Mandarin, and Pinyin."
    + "\n    Return ONLY a JSON array that matches the provided schema.\n  "

  /** The prompt up to the vocabulary string. */
  function PromptHead(language: Language): string {
    PromptOpening + LanguageName(language) + PromptVocabLead
  }

  /** The prompt template with the language and the vocabulary string filled in. */
  function Prompt(language: Language, vocabString: string): string {
    PromptHead(language) + vocabString + PromptClosing
  }

  /** `t` occurs in `s` at position `k`. */
  predicate OccursAt(s: string, t: string, k: nat) {
    k + |t| <= |s| && s[k..k + |t|] == t
  }

  /** The prompt names the language right after its opening words. */
  lemma PromptNamesLanguage(language: Language, vocabString: string)
    ensures OccursAt(Prompt(language, vocabString), LanguageName(language), |PromptOpening|)
  {
    var name, head := LanguageName(language), PromptHead(language);
    var n := |PromptOpening|;
    var p := Prompt(language, vocabString);
    JsStrings.SliceLeft(head + vocabString, PromptClosing, n, n + |name|);
    JsStrings.SliceLeft(head, vocabString, n, n + |name|);
    JsStrings.SliceLeft(PromptOpening + name, PromptVocabLead, n, n + |name|);
    JsStrings.SliceRight(PromptOpening, name, n, n + |name|);
    assert name[0..|name|] == name;
    assert p[n..n + |name|] == name;
  }

  /** The prompt carries the vocabulary string right after the vocabulary lead-in. */
  lemma PromptCarriesVocabulary(language: Language, vocabString: string)
    ensures OccursAt(Prompt(language, vocabString), vocabString, |PromptHead(language)|)
  {
    var head := PromptHead(language);
    JsStrings.SliceLeft(head + vocabString, PromptClosing, |head|, |head| + |vocabString|);
    JsStrings.SliceRight(head, vocabString, |head|, |head| + |vocabString|);
    assert vocabString[0..|vocabString|] == vocabString;
  }

  /** The prompt contains the request line after the vocabulary string. */
  lemma PromptRequestsSentences(language: Language, vocabString: string)
    ensures OccursAt(Prompt(language, vocabString), RequestLine, |PromptHead(language)| + |vocabString| + 6)
  {
    var front := PromptHead(language) + vocabString;
    var k, lead := |front|, ".\n    ";
    assert |lead| == 6;
    assert PromptClosing == lead + RequestLine + PromptTail;
    JsStrings.SliceRight(front, PromptClosing, k + 6, k + 6 + |RequestLine|);
    JsStrings.SliceLeft(lead + RequestLine, PromptTail, 6, 6 + |RequestLine|);
    JsStrings.SliceRight(lead, RequestLine, 6, 6 + |RequestLine|);
    assert RequestLine[0..|RequestLine|] == RequestLine;
  }

  /** The character right after the opening is the language name's first. */
  lemma PromptLanguageInitial(language: Language, vocabString: string)
    ensures Prompt(language, vocabString)[|PromptOpening|] == LanguageName(language)[0]
  {
    var n, name := |PromptOpening|, LanguageName(language);
    var head := PromptHead(language);
    assert n < |head|;
    assert Prompt(language, vocabString)[n] == head[n];
    assert head[n] == (name + PromptVocabLead)[0] == name[0];
  }

  /** The prompt determines the language and the vocabulary string it was built from. */
  lemma PromptInjective(l1: Language, v1: string, l2: Language, v2: string)
    requires Prompt(l1, v1) == Prompt(l2, v2)
    ensures l1 == l2 && v1 == v2
  {
    PromptLanguageInitial(l1, v1);
    PromptLanguageInitial(l2, v2);
    assert l1 == l2;
    var p, head := Prompt(l1, v1), PromptHead(l1);
    assert v1 == p[|head|..|p| - |PromptClosing|];
  }

  /** What the Gemini call produced: it threw, or it answered with an optional `text`. */
  datatype ModelResponse = Threw | Responded(text: Option<string>)

  /** The three ways a generation ends (the mock data, the parsed answer, the error fallback). */
  datatype Generation = MockData | Parsed(sentences: seq<Sentence>) | ErrorFallback

  /** What is written to the console: at module load, and on the way through a call. */
  datatype LogEvent = KeyNotSetWarning | MissingKeyWarning | GenerationError

  /** The warning printed when the module loads: exactly when no client can be built. */
  function LoadLog(apiKey: string): (events: seq<LogEvent>)
    ensures |events| <= 1
    ensures events != [] <==> GetAIClient(apiKey).None?
    ensures forall e :: e in events ==> e == KeyNotSetWarning
  {
    if apiKey == "" then [KeyNotSetWarning] else []
  }

  /** The sentences returned when there is no API key. */
  const MockSentences: seq<Sentence> := [
    Sentence("Kucing itu besar.", "The cat is big.", "那只猫很大。", "nà zhī māo hěn dà."),
    Sentence("Saya suka anjing kecil.", "I like small dogs.", "我喜欢小狗。", "wǒ xǐhuān xiǎo gǒu.")
  ]

  /** The sentence returned when the call or the parse fails. */
  const ErrorSentences: seq<Sentence> := [
    Sentence("Terjadi kesalahan saat membuat kalimat.", "An error occurred while creating sentences.",
             "创建句子时发生错误。", "chuàngjiàn jùzi shí fāshēng cuòwù.")
  ]

  /** `response.text ? response.text.trim() : ''`. */
  function JsonString(text: Option<string>): (json: string)
  {
    match text
    case None => ""
    case Some(t) => JsStrings.Trim(t)
  }

  /** The branch `generatePracticeSentences` takes. */
  function Decide(apiKey: string, vocab: seq<SimpleVocab>, language: Language,
                  model: (AIClient, string) -> ModelResponse, parse: string -> Option<seq<Sentence>>): Generation
  {
    match GetAIClient(apiKey)
    case None => MockData
    case Some(ai) => HandleResponse(model(ai, PromptFor(vocab, language)), parse)
  }

  /** The `try`/`catch` around the call: an empty trimmed text is thrown, and every throw is caught. */
  function HandleResponse(response: ModelResponse, parse: string -> Option<seq<Sentence>>): Generation
  {
    match response
    case Threw => ErrorFallback
    case Responded(text) =>
      var json := JsonString(text);
      if json == "" then ErrorFallback
      else
        match parse(json)
        case None => ErrorFallback
        case Some(sentences) => Parsed(sentences)
  }

  /** The prompt sent for a vocabulary and a language. */
  function PromptFor(vocab: seq<SimpleVocab>, language: Language): string {
    Prompt(language, VocabString(vocab, language))
  }

  /** The sentences a generation hands back. */
  function Result(g: Generation): seq<Sentence> {
    match g
    case MockData => MockSentences
    case Parsed(sentences) => sentences
    case ErrorFallback => ErrorSentences
  }

  /** The console output of a call to `generatePracticeSentences`. */
  function Logged(g: Generation): seq<LogEvent> {
    match g
    case MockData => [MissingKeyWarning]
    case Parsed(_) => []
    case ErrorFallback => [GenerationError]
  }

  /** `generatePracticeSentences(vocab, language)`. */
  function GeneratePracticeSentences(apiKey: string, vocab: seq<SimpleVocab>, language: Language,
                                     model: (AIClient, string) -> ModelResponse,
                                     parse: string -> Option<seq<Sentence>>): seq<Sentence>
  {
    Result(Decide(apiKey, vocab, language, model, parse))
  }

  /** The fixed sentence lists are non-empty and every field of every sentence in them is non-empty. */
  lemma FallbacksWellFormed()
    ensures |MockSentences| == 2 && |ErrorSentences| == 1
    ensures forall s :: s in MockSentences + ErrorSentences ==>
      s.indonesian != "" && s.english != "" && s.mandarin != "" && s.pinyin != ""
  {
  }

  /**
   * Without an API key the result is the two mock sentences, in order, with one
   * warning; the model and the parser are not consulted, so any two give the same.
   */
  lemma NoKeyGivesMock(vocab: seq<SimpleVocab>, language: Language,
                       m1: (AIClient, string) -> ModelResponse, p1: string -> Option<seq<Sentence>>,
                       m2: (AIClient, string) -> ModelResponse, p2: string -> Option<seq<Sentence>>)
    ensures Decide("", vocab, language, m1, p1) == MockData
    ensures GeneratePracticeSentences("", vocab, language, m1, p1) == MockSentences
    ensures GeneratePracticeSentences("", vocab, language, m1, p1)
         == GeneratePracticeSentences("", vocab, language, m2, p2)
    ensures Logged(Decide("", vocab, language, m1, p1)) == [MissingKeyWarning]
  {
  }

  /**
   * With a key, the model is asked once, through the client for that key, with the
   * prompt built from the language and the vocabulary: models that agree on that one
   * question give the same result.
   */
  lemma OnlyThePromptIsSent(apiKey: string, vocab: seq<SimpleVocab>, language: Language,
                            m1: (AIClient, string) -> ModelResponse, m2: (AIClient, string) -> ModelResponse,
                            parse: string -> Option<seq<Sentence>>)
    requires apiKey != ""
    requires m1(AIClient(apiKey), PromptFor(vocab, language)) == m2(AIClient(apiKey), PromptFor(vocab, language))
    ensures Decide(apiKey, vocab, language, m1, parse) == Decide(apiKey, vocab, language, m2, parse)
  {
  }

  /** The failure conditions of the call: it threw, or the trimmed text is empty, or the parse failed. */
  predicate CallFailed(response: ModelResponse, parse: string -> Option<seq<Sentence>>) {
    || response.Threw?
    || JsonString(response.text) == ""
    || parse(JsonString(response.text)).None?
  }

  /**
   * The `catch` is reached exactly when the call failed; otherwise the parsed value
   * of the trimmed text is what comes out. The mock data never comes out of the call.
   */
  lemma HandleResponseCases(response: ModelResponse, parse: string -> Option<seq<Sentence>>)
    ensures HandleResponse(response, parse) == ErrorFallback <==> CallFailed(response, parse)
    ensures !CallFailed(response, parse) ==>
      HandleResponse(response, parse) == Parsed(parse(JsonString(response.text)).value)
    ensures HandleResponse(response, parse) != MockData
  {
  }

  /**
   * With a key, the error fallback is taken exactly when the call failed; then the
   * result is the single error sentence and one error is logged.
   */
  lemma ErrorFallbackIff(apiKey: string, vocab: seq<SimpleVocab>, language: Language,
                         model: (AIClient, string) -> ModelResponse, parse: string -> Option<seq<Sentence>>)
    requires apiKey != ""
    ensures var g := Decide(apiKey, vocab, language, model, parse);
      g == ErrorFallback <==> CallFailed(model(AIClient(apiKey), PromptFor(vocab, language)), parse)
    ensures var g := Decide(apiKey, vocab, language, model, parse);
      g == ErrorFallback ==> Result(g) == ErrorSentences && Logged(g) == [GenerationError]
  {
    HandleResponseCases(model(AIClient(apiKey), PromptFor(vocab, language)), parse);
  }

  /** A response whose text is only whitespace falls back to the error sentence. */
  lemma WhitespaceResponseFails(apiKey: string, vocab: seq<SimpleVocab>, language: Language,
                                model: (AIClient, string) -> ModelResponse, parse: string -> Option<seq<Sentence>>,
                                text: string)
    requires apiKey != ""
    requires model(AIClient(apiKey), PromptFor(vocab, language)) == Responded(Some(text))
    requires forall i :: 0 <= i < |text| ==> JsStrings.IsTrimmable(text[i])
    ensures GeneratePracticeSentences(apiKey, vocab, language, model, parse) == ErrorSentences
  {
    JsStrings.TrimEmptyIff(text);
  }

  /**
   * The parsed answer is returned exactly when there is a key, the call did not fail
   * and the trimmed text parsed to it; it is returned as parsed, and nothing is logged.
   */
  lemma ParsedIff(apiKey: string, vocab: seq<SimpleVocab>, language: Language,
                  model: (AIClient, string) -> ModelResponse, parse: string -> Option<seq<Sentence>>,
                  sentences: seq<Sentence>)
    ensures var response := model(AIClient(apiKey), PromptFor(vocab, language));
      Decide(apiKey, vocab, language, model, parse) == Parsed(sentences) <==>
        apiKey != "" && !CallFailed(response, parse) && parse(JsonString(response.text)) == Some(sentences)
    ensures var g := Decide(apiKey, vocab, language, model, parse);
      g == Parsed(sentences) ==>
        GeneratePracticeSentences(apiKey, vocab, language, model, parse) == sentences && Logged(g) == []
  {
    HandleResponseCases(model(AIClient(apiKey), PromptFor(vocab, language)), parse);
  }

  /** The result is never a mix: it is the mock list, the error list, or the parsed answer unchanged. */
  lemma NeverMixed(apiKey: string, vocab: seq<SimpleVocab>, language: Language,
                   model: (AIClient, string) -> ModelResponse, parse: string -> Option<seq<Sentence>>)
    ensures var r := GeneratePracticeSentences(apiKey, vocab, language, model, parse);
      var response := model(AIClient(apiKey), PromptFor(vocab, language));
      || (apiKey == "" && r == MockSentences)
      || (apiKey != "" && r == ErrorSentences)
      || (apiKey != "" && !CallFailed(response, parse) && parse(JsonString(response.text)) == Some(r))
  {
    HandleResponseCases(model(AIClient(apiKey), PromptFor(vocab, language)), parse);
  }

  /**
   * Neither the vocabulary nor the answer is checked: for any vocabulary, the empty
   * one included, a model that answers "[]" yields the empty list, not three sentences,
   * whenever the parser reads "[]" as the empty array, as `JSON.parse` does.
   */
  lemma AnswerNotLengthChecked(apiKey: string, vocab: seq<SimpleVocab>, language: Language,
                               model: (AIClient, string) -> ModelResponse,
                               parse: string -> Option<seq<Sentence>>)
    requires apiKey != ""
    requires model(AIClient(apiKey), PromptFor(vocab, language)) == Responded(Some("[]"))
    requires parse("[]") == Some([])
    ensures GeneratePracticeSentences(apiKey, vocab, language, model, parse) == []
    ensures |GeneratePracticeSentences(apiKey, vocab, language, model, parse)| != RequestedCount
  {
    var response := model(AIClient(apiKey), PromptFor(vocab, language));
    assert GetAIClient(apiKey) == Some(AIClient(apiKey));
    assert Decide(apiKey, vocab, language, model, parse) == HandleResponse(response, parse);
    EmptyAnswerParsesEmpty(parse);
  }

  /** The answer "[]" trims to itself and, read by a parser that accepts it as the empty array, yields the empty list. */
  lemma EmptyAnswerParsesEmpty(parse: string -> Option<seq<Sentence>>)
    requires parse("[]") == Some([])
    ensures HandleResponse(Responded(Some("[]")), parse) == Parsed([])
  {
    var json := "[]";
    JsStrings.TrimUnchanged(json);
    assert JsonString(Some(json)) == json;
  }
}
