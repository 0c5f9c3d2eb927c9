/**
 * The suggestion service (services/geminiService.ts): the prompt sent to the
 * model, the check for a missing API key, the accumulation of the streamed
 * response, the translation of a failed call into a user-facing message, and
 * the post-processing of the accumulated text into a list of folders.
 *
 * The model client and its stream are a parameter: a function from the prompt
 * to the chunks it streams back and the error, if any, that ended the stream.
 * `JSON.parse` is a parameter too.
 */
module GeminiService {
  import opened Wrappers
  import opened Types
  import opened Text
  import opened Seqs

  // ---------------------------------------------------------------------------
  // The prompt

  /** One list line: a dash, the title, a colon and the URL. */
  function BookmarkLine(b: Bookmark): string
  {
    "- " + b.title + ": " + b.url
  }

  function BookmarkLines(bs: seq<Bookmark>): (r: seq<string>)
    ensures |r| == |bs|
    ensures forall i :: 0 <= i < |bs| ==> r[i] == BookmarkLine(bs[i])
  {
    if bs == [] then []
    else
      var rest := BookmarkLines(bs[1..]);
      assert forall i :: 1 <= i < |bs| ==> rest[i - 1] == BookmarkLine(bs[i]);
      [BookmarkLine(bs[0])] + rest
  }

  /** `bookmarkList`: one line per bookmark, joined with newlines. */
  function BookmarkList(bs: seq<Bookmark>): string
  {
    Join(BookmarkLines(bs), "\n")
  }

  const PromptIntro: string :=
    "You are an expert personal librarian. Your task is to organize a chaotic list of browser bookmarks into a clean, logical, and hierarchical folder structure.\n  \n"
    + "  Analyze the following list of bookmarks and create a new structure. Group similar links together under descriptive folder names. Create subfolders where appropriate (e.g., \"Programming\" -> \"JavaScript\" -> \"React\").\n  \n"
    + "  For each individual bookmark, also generate a list of 1-3 concise, relevant, lowercase tags based on its title and URL. These tags should help in searching and filtering later.\n  \n"
    + "  Ensure every single bookmark from the list is placed into a folder. Do not omit any bookmarks.\n  \n"
    + "  Here is the list of bookmarks:\n  "

  const PromptOutro: string :=
    "\n  \n  Provide the new structure in a JSON format that adheres to the provided schema."

  /** `getPrompt`: the fixed instructions with the bookmark list in the middle. */
  function Prompt(bs: seq<Bookmark>): string
  {
    PromptIntro + BookmarkList(bs) + PromptOutro
  }

  /** A bookmark whose title and URL are single-line gives a single line. */
  lemma LineUnbroken(b: Bookmark)
    requires '\n' !in b.title && '\n' !in b.url
    ensures '\n' !in BookmarkLine(b)
  {
  }

  /**
   * Read back line by line, the list gives each bookmark's line in input order,
   * as long as no title or URL spans a line break.
   */
  lemma BookmarkListLines(bs: seq<Bookmark>)
    requires bs != []
    requires forall i :: 0 <= i < |bs| ==> '\n' !in bs[i].title && '\n' !in bs[i].url
    ensures Split(BookmarkList(bs), '\n') == BookmarkLines(bs)
  {
    var lines := BookmarkLines(bs);
    forall i | 0 <= i < |lines| ensures '\n' !in lines[i] {
      LineUnbroken(bs[i]);
    }
    SplitJoin(lines, '\n');
  }

  /**
   * The prompt is the instructions, then the list, then the closing request, so
   * the list is read back by cutting both off; when titles and URLs are
   * single-line, that gives each bookmark's line in input order.
   */
  lemma PromptHoldsList(bs: seq<Bookmark>)
    ensures var p := Prompt(bs);
      && |PromptIntro| + |PromptOutro| <= |p|
      && p[..|PromptIntro|] == PromptIntro
      && p[|p| - |PromptOutro|..] == PromptOutro
      && p[|PromptIntro|..|p| - |PromptOutro|] == BookmarkList(bs)
    ensures var p := Prompt(bs);
      bs != [] && (forall i :: 0 <= i < |bs| ==> '\n' !in bs[i].title && '\n' !in bs[i].url) ==>
        Split(p[|PromptIntro|..|p| - |PromptOutro|], '\n') == BookmarkLines(bs)
  {
    Sandwich(PromptIntro, BookmarkList(bs), PromptOutro);
    if bs != [] && (forall i :: 0 <= i < |bs| ==> '\n' !in bs[i].title && '\n' !in bs[i].url) {
      BookmarkListLines(bs);
    }
  }

  // ---------------------------------------------------------------------------
  // Failures of the call

  const KeyNotSetMessage := "Gemini API Key is not set. Please add it in the settings."
  const InvalidKeyMessage := "Invalid Gemini API Key. Please check the key in the settings."
  const RateLimitMessage := "Rate limit exceeded. Please wait a moment before trying again."
  const BillingMessage :=
    "API request failed. This may be due to a billing issue with your Google Cloud project. Please verify your project settings."
  const UnexpectedMessage :=
    "An unexpected error occurred while communicating with the Gemini API. Check your network connection."

  /** What a failed call throws: an `Error` with its message, or any other value. */
  datatype Thrown = ErrorObject(message: string) | OtherValue

  predicate MentionsInvalidKey(m: string)
  {
    Contains(m, "api key not valid") || Contains(m, "invalid api key")
  }

  predicate MentionsRateLimit(m: string)
  {
    Contains(m, "rate limit")
  }

  predicate MentionsBilling(m: string)
  {
    Contains(m, "billing") || Contains(m, "project")
  }

  /** The message the service reports for what the failed call threw. */
  function ClassifyError(err: Thrown): (message: string)
    ensures message in {InvalidKeyMessage, RateLimitMessage, BillingMessage, UnexpectedMessage}
    ensures err.OtherValue? ==> message == UnexpectedMessage
  {
    if err.ErrorObject? then
      var m := Lower(err.message);
      if MentionsInvalidKey(m) then InvalidKeyMessage
      else if MentionsRateLimit(m) then RateLimitMessage
      else if MentionsBilling(m) then BillingMessage
      else UnexpectedMessage
    else
      UnexpectedMessage
  }

  /** The four messages are different texts. */
  lemma MessagesDistinct()
    ensures InvalidKeyMessage != RateLimitMessage && InvalidKeyMessage != BillingMessage
    ensures InvalidKeyMessage != UnexpectedMessage && RateLimitMessage != BillingMessage
    ensures RateLimitMessage != UnexpectedMessage && BillingMessage != UnexpectedMessage
  {
    assert |InvalidKeyMessage| == 61 && |RateLimitMessage| == 62;
    assert |BillingMessage| == 123 && |UnexpectedMessage| == 100;
  }

  /**
   * The checks are tried in order on the lower-cased message, and each message
   * is reported exactly when its check is the first that matches.
   */
  lemma ClassificationOrder(text: string)
    ensures var m, r := Lower(text), ClassifyError(ErrorObject(text));
      && (r == InvalidKeyMessage <==> MentionsInvalidKey(m))
      && (r == RateLimitMessage <==> !MentionsInvalidKey(m) && MentionsRateLimit(m))
      && (r == BillingMessage <==> !MentionsInvalidKey(m) && !MentionsRateLimit(m) && MentionsBilling(m))
      && (r == UnexpectedMessage <==> !MentionsInvalidKey(m) && !MentionsRateLimit(m) && !MentionsBilling(m))
  {
    MessagesDistinct();
  }

  /** The classification ignores case: a message and its lower-cased form are reported alike. */
  lemma ClassificationIgnoresCase(text: string)
    ensures ClassifyError(ErrorObject(text)) == ClassifyError(ErrorObject(Lower(text)))
  {
    LowerIdempotent(text);
  }

  // ---------------------------------------------------------------------------
  // The stream

  /** The text of each chunk the stream delivered (possibly absent), and the error that ended it, if any. */
  datatype Stream = Stream(chunks: seq<Option<string>>, failure: Option<Thrown>)

  /** The chunk texts that pass `if (chunkText)`: present and non-empty, in order. */
  function Delivered(chunks: seq<Option<string>>): seq<string>
  {
    if chunks == [] then []
    else
      var last := chunks[|chunks| - 1];
      Delivered(chunks[..|chunks| - 1]) + (if last.Some? && last.value != [] then [last.value] else [])
  }

  /** The text of a chunk, an absent text read as empty. */
  function TextOf(chunk: Option<string>): string
  {
    if chunk.Some? then chunk.value else []
  }

  /** Everything the stream said, chunk after chunk. */
  function AllText(chunks: seq<Option<string>>): string
  {
    if chunks == [] then [] else AllText(chunks[..|chunks| - 1]) + TextOf(chunks[|chunks| - 1])
  }

  /**
   * The loop over the stream: every chunk with text is appended to the
   * accumulated text and handed to `onChunk`; `handed` lists those hand-overs.
   */
  method AccumulateChunks(chunks: seq<Option<string>>) returns (accumulated: string, handed: seq<string>)
    ensures handed == Delivered(chunks)
    ensures accumulated == Concat(handed)
  {
    accumulated, handed := [], [];
    for i := 0 to |chunks|
      invariant handed == Delivered(chunks[..i])
      invariant accumulated == Concat(handed)
    {
      var chunkText := chunks[i];
      assert chunks[..i + 1][..i] == chunks[..i];
      if chunkText.Some? && chunkText.value != [] {
        accumulated := accumulated + chunkText.value;
        handed := handed + [chunkText.value];
        assert handed[..|handed| - 1] == handed[..|handed| - 1];
      }
    }
    assert chunks[..|chunks|] == chunks;
  }

  /** Skipping the empty chunks loses nothing: the accumulated text is all the stream said. */
  lemma {:induction false} DeliveredIsAllText(chunks: seq<Option<string>>)
    ensures Concat(Delivered(chunks)) == AllText(chunks)
    ensures forall t :: t in Delivered(chunks) ==> t != []
  {
    if chunks != [] {
      var n := |chunks| - 1;
      DeliveredIsAllText(chunks[..n]);
      var d := Delivered(chunks[..n]);
      if chunks[n].Some? && chunks[n].value != [] {
        assert (d + [chunks[n].value])[..|d|] == d;
      } else {
        assert TextOf(chunks[n]) == [];
        assert Delivered(chunks) == d + [] == d;
        assert AllText(chunks) == AllText(chunks[..n]) + [] == AllText(chunks[..n]);
      }
    }
  }

  // ---------------------------------------------------------------------------
  // Post-processing

  const OpenFence := "```json"
  const CloseFence := "```"
  const EmptyResponseMessage := "The AI returned an empty response. The bookmark file might be too large or complex."
  const NotArrayMessage := "API returned a response that was not in the expected array format."
  const InvalidFormatMessage :=
    "The AI's response was not in a valid format. This can be a temporary issue; please try again."

  /** A parsed JSON value, as far as the service looks at it: an array or anything else. */
  datatype Json = JsonArray(elements: seq<Json>) | JsonOther(text: string)

  /** The `^```json\s*` alternative: an opening fence at the very start and the whitespace after it. */
  function StripOpenFence(s: string): string
  {
    if StartsWith(s, OpenFence) then TrimStart(s[|OpenFence|..]) else s
  }

  /**
   * The ```` ```\s*$ ```` alternative: a closing fence followed by nothing but
   * whitespace. Such a fence is the last three characters before the trailing
   * whitespace.
   */
  function StripCloseFence(s: string): string
  {
    var t := TrimEnd(s);
    if EndsWith(t, CloseFence) then t[..|t| - |CloseFence|] else s
  }

  /** Removes a leading JSON code fence and a trailing code fence, each with the whitespace next to it. */
  function StripFences(text: string): string
  {
    StripCloseFence(StripOpenFence(text))
  }

  /** The checks inside the `try`, each with the error it throws. */
  function CheckResponse(clean: string, parse: string -> Result<Json, string>): Result<seq<Json>, string>
  {
    if Trim(clean) == [] then Failure(EmptyResponseMessage)
    else
      match parse(clean)
      case Failure(e) => Failure(e)
      case Success(json) => if json.JsonArray? then Success(json.elements) else Failure(NotArrayMessage)
  }

  /** Any error thrown inside the `try` is replaced by the one generic message. */
  function PostProcess(text: string, parse: string -> Result<Json, string>): (r: Result<seq<Json>, string>)
    ensures r.Failure? ==> r.error == InvalidFormatMessage
    ensures var clean := StripFences(text);
      r.Success? <==> Trim(clean) != [] && parse(clean).Success? && parse(clean).value.JsonArray?
    ensures r.Success? ==> r.value == parse(StripFences(text)).value.elements
  {
    match CheckResponse(StripFences(text), parse)
    case Success(folders) => Success(folders)
    case Failure(_) => Failure(InvalidFormatMessage)
  }

  /** A response wrapped in a fenced block is read as the block's contents. */
  lemma FenceRoundTrip(body: string, w1: string, w2: string)
    requires AllSpace(w1) && AllSpace(w2)
    requires body == [] || !IsSpace(body[0])
    ensures StripFences(OpenFence + w1 + body + CloseFence + w2) == body
  {
    var u := body + CloseFence + w2;
    Regroup(OpenFence, w1, body, CloseFence, w2);
    OpenFenceStripped(w1 + u);
    TrimStartAfterSpaces(w1, u);
    CloseFenceStripped(body, w2);
  }

  lemma Regroup(a: string, b: string, c: string, d: string, e: string)
    ensures a + b + c + d + e == a + (b + (c + d + e))
    ensures c + d + e == c + (d + e)
  {
  }

  lemma OpenFenceStripped(rest: string)
    ensures StripOpenFence(OpenFence + rest) == TrimStart(rest)
  {
    var s := OpenFence + rest;
    assert s[..|OpenFence|] == OpenFence && s[|OpenFence|..] == rest;
  }

  lemma CloseFenceStripped(body: string, w: string)
    requires AllSpace(w)
    ensures StripCloseFence(body + CloseFence + w) == body
  {
    var closed := body + CloseFence;
    TrimEndBeforeSpaces(closed, w);
    assert closed[|closed| - |CloseFence|..] == CloseFence;
    assert closed[..|closed| - |CloseFence|] == body;
  }

  /** A response with neither fence is left as it is. */
  lemma NoFenceUnchanged(text: string)
    requires !StartsWith(text, OpenFence)
    requires TrimEnd(text) == [] || TrimEnd(text)[|TrimEnd(text)| - 1] != '`'
    ensures StripFences(text) == text
  {
  }

  /** Whitespace in front of a string that starts with a non-space is dropped by `TrimStart`, and only it. */
  lemma {:induction false} TrimStartAfterSpaces(w: string, s: string)
    requires AllSpace(w) && (s == [] || !IsSpace(s[0]))
    ensures TrimStart(w + s) == if s == [] then [] else s
  {
    if w != [] {
      assert (w + s)[1..] == w[1..] + s;
      TrimStartAfterSpaces(w[1..], s);
    } else {
      assert w + s == s;
    }
  }

  /** Whitespace after a string that ends with a non-space is dropped by `TrimEnd`, and only it. */
  lemma {:induction false} TrimEndBeforeSpaces(s: string, w: string)
    requires AllSpace(w) && s != [] && !IsSpace(s[|s| - 1])
    ensures TrimEnd(s + w) == s
  {
    if w != [] {
      var n := |w| - 1;
      assert (s + w)[..|s + w| - 1] == s + w[..n];
      TrimEndBeforeSpaces(s, w[..n]);
    } else {
      assert s + w == s;
    }
  }

  // ---------------------------------------------------------------------------
  // The whole call

  /** What `getBookmarkSuggestionsStream` settles to: the folders, or the message it rejects with. */
  function Outcome(
    bookmarks: seq<Bookmark>, apiKey: string,
    model: string -> Stream, parse: string -> Result<Json, string>): Result<seq<Json>, string>
  {
    if apiKey == [] then Failure(KeyNotSetMessage)
    else
      var stream := model(Prompt(bookmarks));
      if stream.failure.Some? then Failure(ClassifyError(stream.failure.value))
      else PostProcess(Concat(Delivered(stream.chunks)), parse)
  }

  /**
   * `getBookmarkSuggestionsStream`. Returns the outcome and the chunk texts
   * handed to `onChunk`, in order.
   */
  method GetBookmarkSuggestionsStream(
    bookmarks: seq<Bookmark>, apiKey: string,
    model: string -> Stream, parse: string -> Result<Json, string>)
    returns (result: Result<seq<Json>, string>, handed: seq<string>)
    ensures result == Outcome(bookmarks, apiKey, model, parse)
    ensures apiKey == [] ==> handed == []
    ensures apiKey != [] ==> handed == Delivered(model(Prompt(bookmarks)).chunks)
  {
    if |apiKey| == 0 {
      return Failure(KeyNotSetMessage), [];
    }
    var prompt := Prompt(bookmarks);
    var stream := model(prompt);
    var accumulated;
    accumulated, handed := AccumulateChunks(stream.chunks);
    if stream.failure.Some? {
      return Failure(ClassifyError(stream.failure.value)), handed;
    }
    result := PostProcess(accumulated, parse);
  }

  /** Every rejection carries one of the service's own messages. */
  lemma OutcomeMessages(
    bookmarks: seq<Bookmark>, apiKey: string,
    model: string -> Stream, parse: string -> Result<Json, string>)
    ensures var r := Outcome(bookmarks, apiKey, model, parse);
      r.Failure? ==> r.error in {KeyNotSetMessage, InvalidKeyMessage, RateLimitMessage, BillingMessage,
                                 UnexpectedMessage, InvalidFormatMessage}
  {
  }

  /** Without a key nothing is asked of the model, whatever it would answer. */
  lemma NoKeyNoCall(bookmarks: seq<Bookmark>, model1: string -> Stream, model2: string -> Stream,
                    parse: string -> Result<Json, string>)
    ensures Outcome(bookmarks, [], model1, parse) == Outcome(bookmarks, [], model2, parse) == Failure(KeyNotSetMessage)
  {
  }
}
