/** The Gemini service helpers: which models can generate content, which one the
    application picks, what it sends, and how a failed call is reported. The remote
    API is not modelled; its answers (the model listing, the outcome of a generation
    call) are inputs. */
module AiService {
  import opened Wrappers
  import opened Strings
  import opened Sequences

  /** One entry of `genai.list_models()`. */
  datatype ModelInfo = ModelInfo(name: string, supportedGenerationMethods: seq<string>)

  predicate SupportsGeneration(m: ModelInfo) {
    "generateContent" in m.supportedGenerationMethods
  }

  function NamesOf(models: seq<ModelInfo>): (names: seq<string>)
    ensures |names| == |models|
    ensures forall i :: 0 <= i < |models| ==> names[i] == models[i].name
  {
    seq(|models|, i requires 0 <= i < |models| => models[i].name)
  }

  /** `get_gemini_models`: the names of the listed models that support
      `generateContent`, in listing order; `[]` when configuring or listing raised
      (`listing == None`). */
  function GeminiModels(listing: Option<seq<ModelInfo>>): (names: seq<string>)
    ensures listing.None? ==> names == []
    ensures listing.Some? ==> IsSubsequence(names, NamesOf(listing.value))
    ensures listing.Some? ==> forall m :: m in listing.value && SupportsGeneration(m) ==> m.name in names
    ensures listing.Some? ==> forall n :: n in names ==> exists m :: m in listing.value && SupportsGeneration(m) && m.name == n
    ensures listing.Some? ==> names == NamesOf(Filter(SupportsGeneration, listing.value))
  {
    match listing
    case None => []
    case Some(models) =>
      var usable := Filter(SupportsGeneration, models);
      SubsequenceNames(usable, models);
      assert forall m :: m in usable ==> NamesOf(usable)[IndexIn(m, usable)] == m.name;
      NamesOf(usable)
  }

  lemma {:induction false} SubsequenceNames(a: seq<ModelInfo>, b: seq<ModelInfo>)
    requires IsSubsequence(a, b)
    ensures IsSubsequence(NamesOf(a), NamesOf(b))
    ensures forall n :: n in NamesOf(a) ==> exists m :: m in a && m.name == n
    decreases |b|
  {
    if a != [] {
      assert NamesOf(a)[1..] == NamesOf(a[1..]);
      assert NamesOf(b)[1..] == NamesOf(b[1..]);
      if a[0] == b[0] && IsSubsequence(a[1..], b[1..]) {
        SubsequenceNames(a[1..], b[1..]);
      } else {
        SubsequenceNames(a, b[1..]);
      }
    }
    forall n | n in NamesOf(a)
      ensures exists m :: m in a && m.name == n
    {
      var i := IndexIn(n, NamesOf(a));
      assert a[i] in a;
    }
  }

  /** The preferred models, best first. */
  const Priority: seq<string> := [
    "models/gemini-2.5-flash",
    "models/gemini-2.5-flash-latest",
    "models/gemini-2.5-pro",
    "models/gemini-pro"
  ]

  /** Position of the first of `candidates` that occurs in `models`, or |candidates|
      when none does. */
  function FirstAvailable(candidates: seq<string>, models: seq<string>): (i: nat)
    ensures i <= |candidates|
    ensures forall j :: 0 <= j < i ==> candidates[j] !in models
    ensures i < |candidates| ==> candidates[i] in models
    decreases |candidates|
  {
    if candidates == [] || candidates[0] in models then 0
    else 1 + FirstAvailable(candidates[1..], models)
  }

  /** `get_best_model` over the names `get_gemini_models` returned: the highest-priority
      preferred model that is available; failing that the first available model; `None`
      only when nothing is available. */
  function BestModel(models: seq<string>): (r: Option<string>)
    ensures r.None? <==> models == []
    ensures r.Some? ==> r.value in models
    ensures forall k ::
      (0 <= k < |Priority| && Priority[k] in models && forall j :: 0 <= j < k ==> Priority[j] !in models)
      ==> r == Some(Priority[k])
    ensures (forall k :: 0 <= k < |Priority| ==> Priority[k] !in models) && models != [] ==> r == Some(models[0])
  {
    var i := FirstAvailable(Priority, models);
    if i < |Priority| then Some(Priority[i])
    else if models == [] then None
    else Some(models[0])
  }

  /** When several preferred models are available, the one earlier in the priority list
      wins, wherever it stands in the listing. */
  lemma EarlierPriorityWins(models: seq<string>, i: nat, j: nat)
    requires i < j < |Priority|
    requires Priority[i] in models && Priority[j] in models
    ensures BestModel(models) != Some(Priority[j])
  {
    var k := FirstAvailable(Priority, models);
    assert k <= i;
    assert Priority[k] != Priority[j];
  }

  /** `get_best_model(api_key)`: the pick, if any, is a listed model that supports
      `generateContent`; a failed listing yields `None`. */
  lemma BestModelCanGenerate(listing: Option<seq<ModelInfo>>)
    ensures listing.None? ==> BestModel(GeminiModels(listing)) == None
    ensures BestModel(GeminiModels(listing)).Some? ==>
      exists m :: m in listing.value && SupportsGeneration(m) && Some(m.name) == BestModel(GeminiModels(listing))
  {
  }

  /** The tag every error reply starts with; callers recognise failures by it. */
  const ErrorTag := "API_ERROR"
  const QuotaExceededReply := "API_ERROR: Quota Exceeded (โควต้าเต็ม)"

  /** How callers recognise a failed call: a reply starting with the error tag. */
  predicate IsErrorReply(reply: string) {
    IsPrefix(ErrorTag, reply)
  }

  /** The `except` branch of `generate_content`: a message mentioning `429` is reported
      as the fixed quota reply; any other message is reported verbatim after the
      `"API_ERROR: "` prefix. */
  function ErrorReply(message: string): (r: string)
    ensures IsErrorReply(r)
    ensures Contains(message, "429") ==> r == QuotaExceededReply
    ensures !Contains(message, "429") ==> |r| == 11 + |message| && r[..11] == "API_ERROR: " && r[11..] == message
  {
    if Contains(message, "429") then QuotaExceededReply else "API_ERROR: " + message
  }

  /** A part of the content list sent to the model; images are opaque handles. */
  datatype Part = TextPart(text: string) | ImagePart(image: nat)

  /** The content list: the prompt, followed by the image when one is given. */
  function Content(prompt: string, image: Option<nat>): (parts: seq<Part>)
    ensures |parts| == if image.Some? then 2 else 1
    ensures parts[0] == TextPart(prompt)
    ensures image.Some? ==> parts[1] == ImagePart(image.value)
  {
    [TextPart(prompt)] + match image { case Some(i) => [ImagePart(i)] case None => [] }
  }

  /** What the remote `generate_content` gives back: a response whose `.text` may
      itself raise, or an exception raised while configuring or calling. */
  datatype Response = Response(stream: nat, text: Result<string, string>)
  datatype CallOutcome = Returned(response: Response) | Raised(message: string)

  /** What `generate_content` returns: text, or the response to iterate when streaming. */
  datatype Reply = TextReply(text: string) | StreamReply(stream: nat)

  /** `generate_content`: builds the content list, hands it to the remote call, and maps
      every exception to an error reply. */
  function GenerateContent(prompt: string, image: Option<nat>, stream: bool,
                           call: (seq<Part>, bool) -> CallOutcome): (r: Reply)
    ensures r.StreamReply? <==> stream && call(Content(prompt, image), stream).Returned?
    ensures var o := call(Content(prompt, image), stream);
      o.Returned? && stream ==> r == StreamReply(o.response.stream)
    ensures var o := call(Content(prompt, image), stream);
      o.Returned? && !stream && o.response.text.Success? ==> r == TextReply(o.response.text.value)
    ensures var o := call(Content(prompt, image), stream);
      o.Raised? ==> r == TextReply(ErrorReply(o.message))
    ensures var o := call(Content(prompt, image), stream);
      o.Returned? && !stream && o.response.text.Failure? ==> r == TextReply(ErrorReply(o.response.text.error))
  {
    match call(Content(prompt, image), stream)
    case Raised(m) => TextReply(ErrorReply(m))
    case Returned(response) =>
      if stream then StreamReply(response.stream)
      else match response.text
        case Success(t) => TextReply(t)
        case Failure(m) => TextReply(ErrorReply(m))
  }

  /** Every failure `generate_content` reports, whether the call raised or reading the
      response's text did, is a text reply recognisable by the caller's
      `startswith("API_ERROR")` test; a quota failure is always the fixed quota reply. */
  lemma FailuresAreRecognised(prompt: string, image: Option<nat>, stream: bool,
                              call: (seq<Part>, bool) -> CallOutcome)
    requires || call(Content(prompt, image), stream).Raised?
             || (!stream && call(Content(prompt, image), stream).response.text.Failure?)
    ensures GenerateContent(prompt, image, stream, call).TextReply?
    ensures IsErrorReply(GenerateContent(prompt, image, stream, call).text)
    ensures var outcome := call(Content(prompt, image), stream);
      var message := if outcome.Raised? then outcome.message else outcome.response.text.error;
      Contains(message, "429") ==> GenerateContent(prompt, image, stream, call).text == QuotaExceededReply
  {
  }
}
