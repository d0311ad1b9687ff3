/** The client: builds a request, posts it to the model's endpoint, and extracts the
    first text of the answer. The transport is an object that records every post and
    answers from an oracle that stands for the remote service. */
module Client {
  import opened Wrappers
  import opened Enums
  import opened Platform
  import opened Wire
  import opened RequestModel
  import opened ResponseModel

  /** The exceptions the client lets escape. */
  datatype ClientError =
    | ArgumentNullError(paramName: string)              // ArgumentNullException
    | FileNotFoundError(message: string)                // FileNotFoundException
    | NotSupportedError(message: string)                // NotSupportedException
    | ArgumentError(message: string, paramName: string) // ArgumentException
    | HttpRequestError(statusCode: Option<int>)         // the send failed, or a non-success status
    | JsonError                                         // the body is not a readable response

  // Request construction.

  /** A text-only request: one content item holding one part, the prompt. */
  function TextRequest(prompt: string): (r: GeminiRequest)
    ensures |r.contents| == 1 && |r.contents[0].parts| == 1
    ensures r.contents[0].parts[0].text == Some(prompt)
    ensures r.contents[0].parts[0].inlineData.None?
  {
    GeminiRequest([Content([Part(Some(prompt), None)])])
  }

  /** A text-and-image request: one content item holding two parts, the prompt first
      and the inline image second. Neither the prompt nor the MIME type is checked. */
  function ImageRequest(prompt: string, mimeType: string, base64Data: string): (r: GeminiRequest)
    ensures |r.contents| == 1 && |r.contents[0].parts| == 2
    ensures r.contents[0].parts[0].text == Some(prompt)
    ensures r.contents[0].parts[0].inlineData.None?
    ensures r.contents[0].parts[1].text.None?
    ensures r.contents[0].parts[1].inlineData == Some(InlineData(mimeType, base64Data))
  {
    GeminiRequest([Content([Part(Some(prompt), None), Part(None, Some(InlineData(mimeType, base64Data)))])])
  }

  /** The body posted for a text-only request: no `inline_data` member anywhere. */
  lemma TextRequestOnTheWire(prompt: string)
    ensures EncodeRequest(TextRequest(prompt)) ==
      JObject([Field("contents", JArray([
        JObject([Field("parts", JArray([
          JObject([Field("text", JString(prompt))])]))])]))])
  {
    var request := TextRequest(prompt);
    assert EncodePart(request.contents[0].parts[0]) == JObject([Field("text", JString(prompt))]);
    assert EncodeParts(request.contents[0].parts) == [EncodePart(request.contents[0].parts[0])];
    assert EncodeContents(request.contents) == [EncodeContent(request.contents[0])];
  }

  /** The body posted for an image request: the text part, then the inline-data part. */
  lemma ImageRequestOnTheWire(prompt: string, mimeType: string, base64Data: string)
    ensures EncodeRequest(ImageRequest(prompt, mimeType, base64Data)) ==
      JObject([Field("contents", JArray([
        JObject([Field("parts", JArray([
          JObject([Field("text", JString(prompt))]),
          JObject([Field("inline_data", JObject([
            Field("mime_type", JString(mimeType)),
            Field("data", JString(base64Data))]))])]))])]))])
  {
    var request := ImageRequest(prompt, mimeType, base64Data);
    var parts := request.contents[0].parts;
    assert EncodePart(parts[0]) == JObject([Field("text", JString(prompt))]);
    assert EncodePart(parts[1]) == JObject([Field("inline_data", EncodeInlineData(InlineData(mimeType, base64Data)))]);
    assert EncodeParts(parts) == [EncodePart(parts[0]), EncodePart(parts[1])];
    assert EncodeContents(request.contents) == [EncodeContent(request.contents[0])];
  }

  // The endpoint.

  const BaseUrl: string := "https://generativelanguage.googleapis.com/v1beta/"
  const GenerateContentQuery: string := ":generateContent?key="

  /** The URL every call posts to; the key travels as a query parameter. */
  function Endpoint(model: GeminiModel, apiKey: string): (url: string)
    ensures var name := ToModelName(model);
            && |url| == |BaseUrl| + |name| + |GenerateContentQuery| + |apiKey|
            && url[..|BaseUrl|] == BaseUrl
            && url[|BaseUrl|..|BaseUrl| + |name|] == name
            && url[|BaseUrl| + |name|..|url| - |apiKey|] == GenerateContentQuery
            && url[|url| - |apiKey|..] == apiKey
  {
    BaseUrl + ToModelName(model) + GenerateContentQuery + apiKey
  }

  /** The index of the first ':' in `s`, or `|s|` when there is none; it locates the
      model name inside an endpoint, for `EndpointInjective`. */
  function ColonIndex(s: string): nat {
    if s == [] || s[0] == ':' then 0 else 1 + ColonIndex(s[1..])
  }

  /** A name with no ':' ends at the first ':' that follows it; used by `EndpointInjective`. */
  lemma {:induction false} ColonIndexAfter(name: string, rest: string)
    requires forall i :: 0 <= i < |name| ==> name[i] != ':'
    requires |rest| > 0 && rest[0] == ':'
    ensures ColonIndex(name + rest) == |name|
  {
    if name != [] {
      assert (name + rest)[1..] == name[1..] + rest;
      ColonIndexAfter(name[1..], rest);
    }
  }

  /** The endpoint after the base URL, grouped for `EndpointInjective`. */
  lemma EndpointTail(model: GeminiModel, apiKey: string)
    ensures Endpoint(model, apiKey)[|BaseUrl|..] == ToModelName(model) + (GenerateContentQuery + apiKey)
  {
    var name := ToModelName(model);
    assert BaseUrl + name + GenerateContentQuery + apiKey == BaseUrl + (name + (GenerateContentQuery + apiKey));
  }

  /** The endpoint determines both the model and the key. */
  lemma EndpointInjective(m1: GeminiModel, k1: string, m2: GeminiModel, k2: string)
    requires Endpoint(m1, k1) == Endpoint(m2, k2)
    ensures m1 == m2 && k1 == k2
  {
    var n1, n2 := ToModelName(m1), ToModelName(m2);
    var tail := Endpoint(m1, k1)[|BaseUrl|..];
    EndpointTail(m1, k1);
    EndpointTail(m2, k2);
    ColonIndexAfter(n1, GenerateContentQuery + k1);
    ColonIndexAfter(n2, GenerateContentQuery + k2);
    assert n1 == tail[..|n1|] == n2;
    ToModelNameInjective(m1, m2);
    assert k1 == tail[|n1| + |GenerateContentQuery|..] == k2;
  }

  // MIME type inference.

  const SupportedExtensions: set<string> := {".png", ".jpg", ".jpeg", ".webp"}

  /** The MIME type for an image path, chosen by its lower-cased extension. */
  function GetMimeType(filePath: string): (r: Result<string, ClientError>)
    ensures var ext := ToLowerInvariant(GetExtension(filePath));
            && (r.Success? <==> ext in SupportedExtensions)
            && (r.Success? ==> r.value in {"image/png", "image/jpeg", "image/webp"})
            && (r == Success("image/png") <==> ext == ".png")
            && (r == Success("image/jpeg") <==> ext == ".jpg" || ext == ".jpeg")
            && (r == Success("image/webp") <==> ext == ".webp")
            && (r.Failure? ==> r.error == NotSupportedError("Unsupported image format: " + ext))
  {
    var ext := ToLowerInvariant(GetExtension(filePath));
    match ext
    case ".png" => Success("image/png")
    case ".jpg" => Success("image/jpeg")
    case ".jpeg" => Success("image/jpeg")
    case ".webp" => Success("image/webp")
    case _ => Failure(NotSupportedError("Unsupported image format: " + ext))
  }

  /** The letter case of a path never changes the outcome. */
  lemma MimeTypeIgnoresCase(filePath: string)
    ensures GetMimeType(ToLowerInvariant(filePath)) == GetMimeType(filePath)
  {
    ExtensionOfLower(filePath);
    ToLowerInvariantIdempotent(GetExtension(filePath));
  }

  /** An upper-case extension is accepted. */
  lemma UpperCaseExtensionAccepted()
    ensures GetMimeType("photo.PNG") == Success("image/png")
  {
    ExtensionFrom("photo.PNG", 5);
    assert ToLowerInvariant(".PNG") == ".png";
  }

  /** Any other extension is refused, naming the extension. */
  lemma GifRefused()
    ensures GetMimeType("anim.gif") == Failure(NotSupportedError("Unsupported image format: .gif"))
  {
    ExtensionFrom("anim.gif", 4);
    var ext := ToLowerInvariant(".gif");
    assert ext == ".gif";
    assert ext[1] != ".png"[1] && ext[1] != ".jpg"[1] && ext[1] != ".webp"[1];
    assert "Unsupported image format: " + ext == "Unsupported image format: .gif";
  }

  /** A '.' in a directory name is not an extension. */
  lemma DotInDirectoryIgnored()
    ensures GetMimeType("images.png/raw") == Failure(NotSupportedError("Unsupported image format: "))
  {
    var path := "images.png/raw";
    assert LastMark(path, 11) == Some(10);
    assert LastMark(path, 12) == Some(10);
    assert LastMark(path, 13) == Some(10);
    assert LastMark(path, 14) == Some(10);
    assert GetExtension(path) == "";
    assert ToLowerInvariant("") == "";
    assert "Unsupported image format: " + "" == "Unsupported image format: ";
  }

  // Extraction.

  /** `FirstOrDefault` over a list of references: the first element, or null. */
  function FirstOrDefault<T>(s: seq<T>): (first: Option<T>)
    ensures first.Some? <==> |s| > 0
    ensures first.Some? ==> first.value == s[0]
  {
    if s == [] then None else Some(s[0])
  }

  /** The text of the first part of the content of the first candidate; any missing
      link of that chain gives no text. */
  function FirstText(response: GeminiResponse): (text: Option<string>)
    ensures text.Some? <==>
      && response.candidates.Some?
      && |response.candidates.value| > 0
      && response.candidates.value[0].content.Some?
      && |response.candidates.value[0].content.value.parts| > 0
      && response.candidates.value[0].content.value.parts[0].text.Some?
    ensures text.Some? ==> text == response.candidates.value[0].content.value.parts[0].text
  {
    match response.candidates
    case None => None
    case Some(candidates) =>
      match FirstOrDefault(candidates)
      case None => None
      case Some(candidate) =>
        match candidate.content
        case None => None
        case Some(content) =>
          match FirstOrDefault(content.parts)
          case None => None
          case Some(part) => part.text
  }

  /** Only the first candidate can affect the answer. */
  lemma OnlyFirstCandidateCounts(first: Candidate, later: seq<Candidate>)
    ensures FirstText(GeminiResponse(Some([first] + later))) == FirstText(GeminiResponse(Some([first])))
  {
  }

  /** A first part without text gives no answer, whatever the later parts and candidates hold. */
  lemma LaterPartsIgnored(first: Part, later: seq<Part>, others: seq<Candidate>)
    requires first.text.None?
    ensures FirstText(GeminiResponse(Some([Candidate(Some(Content([first] + later)))] + others))) == None
  {
  }

  /** Missing and empty links are "nothing generated", not an error. */
  lemma MissingLinksGiveNothing(others: seq<Candidate>)
    ensures FirstText(GeminiResponse(None)) == None
    ensures FirstText(GeminiResponse(Some([]))) == None
    ensures FirstText(GeminiResponse(Some([Candidate(None)] + others))) == None
    ensures FirstText(GeminiResponse(Some([Candidate(Some(NewContent))] + others))) == None
  {
  }

  /** A response whose first candidate carries the content of a request built here
      answers with that request's prompt. */
  lemma EchoedContentGivesPrompt(prompt: string, mimeType: string, base64Data: string, others: seq<Candidate>)
    ensures FirstText(GeminiResponse(Some([Candidate(Some(TextRequest(prompt).contents[0]))] + others))) == Some(prompt)
    ensures FirstText(GeminiResponse(Some([Candidate(Some(ImageRequest(prompt, mimeType, base64Data).contents[0]))] + others))) == Some(prompt)
  {
  }

  // The transport.

  /** What the remote service made of one post. */
  datatype Body = NullBody | ResponseBody(response: GeminiResponse) | MalformedBody
  datatype HttpReply = SendFailed | Reply(statusCode: int, body: Body)

  /** One post: the URL and the JSON body. */
  datatype Post = Post(url: string, body: Json)

  /** The remote service: its reply to a post, given how many posts came before. */
  type Remote = (Post, nat) -> HttpReply

  /** The statuses `EnsureSuccessStatusCode` lets through. */
  predicate IsSuccessStatusCode(statusCode: int) {
    200 <= statusCode <= 299
  }

  /** The outcome of a call once the reply is in: a failed send or a non-success status
      throws, an unreadable body throws, a null body gives no text, and otherwise the
      first text is extracted. */
  function ReadAnswer(reply: HttpReply): (r: Result<Option<string>, ClientError>)
    ensures r.Success? <==> reply.Reply? && IsSuccessStatusCode(reply.statusCode) && !reply.body.MalformedBody?
    ensures reply.SendFailed? ==> r == Failure(HttpRequestError(None))
    ensures reply.Reply? && !IsSuccessStatusCode(reply.statusCode) ==>
              r == Failure(HttpRequestError(Some(reply.statusCode)))
    ensures reply.Reply? && IsSuccessStatusCode(reply.statusCode) && reply.body.MalformedBody? ==>
              r == Failure(JsonError)
    ensures r.Success? && reply.body.ResponseBody? ==> r.value == FirstText(reply.body.response)
    ensures r.Success? && reply.body.NullBody? ==> r.value.None?
  {
    match reply
    case SendFailed => Failure(HttpRequestError(None))
    case Reply(statusCode, body) =>
      if !IsSuccessStatusCode(statusCode) then Failure(HttpRequestError(Some(statusCode)))
      else
        match body
        case NullBody => Success(None)
        case ResponseBody(response) => Success(FirstText(response))
        case MalformedBody => Failure(JsonError)
  }

  /** The HTTP transport. It keeps the log of everything posted through it. */
  class Transport {
    const remote: Remote
    var log: seq<Post>

    constructor (remote: Remote)
      ensures this.remote == remote && log == []
    {
      this.remote := remote;
      log := [];
    }

    /** Serializes the request, posts it, and returns the service's reply. */
    method PostAsJson(url: string, request: GeminiRequest) returns (reply: HttpReply)
      modifies this
      ensures log == old(log) + [Post(url, EncodeRequest(request))]
      ensures reply == remote(Post(url, EncodeRequest(request)), |old(log)|)
    {
      var post := Post(url, EncodeRequest(request));
      reply := remote(post, |log|);
      log := log + [post];
    }
  }

  // The client.

  const Base64Message: string := "Base64 image data cannot be null or empty."

  class GeminiClient {
    const apiKey: string
    const httpClient: Transport

    constructor (apiKey: string, httpClient: Transport)
      ensures this.apiKey == apiKey && this.httpClient == httpClient
    {
      this.apiKey := apiKey;
      this.httpClient := httpClient;
    }

    /** A client for the key: a missing key throws; a missing transport is replaced
        by a fresh one over the network. */
    static method Create(apiKey: Option<string>, httpClient: Option<Transport>, network: Remote)
      returns (r: Result<GeminiClient, ClientError>)
      ensures r.Failure? <==> apiKey.None?
      ensures r.Failure? ==> r.error == ArgumentNullError("apiKey")
      ensures r.Success? ==> fresh(r.value) && r.value.apiKey == apiKey.value
      ensures r.Success? && httpClient.Some? ==> r.value.httpClient == httpClient.value
      ensures r.Success? && httpClient.None? ==>
                fresh(r.value.httpClient) && r.value.httpClient.remote == network && r.value.httpClient.log == []
    {
      if apiKey.None? {
        return Failure(ArgumentNullError("apiKey"));
      }
      var transport: Transport;
      if httpClient.Some? {
        transport := httpClient.value;
      } else {
        transport := new Transport(network);
      }
      var client := new GeminiClient(apiKey.value, transport);
      r := Success(client);
    }

    /** Posts a text-only request and returns the first text of the answer. */
    method GenerateText(prompt: string, model: GeminiModel) returns (r: Result<Option<string>, ClientError>)
      modifies httpClient
      ensures var post := Post(Endpoint(model, apiKey), EncodeRequest(TextRequest(prompt)));
              && httpClient.log == old(httpClient.log) + [post]
              && r == ReadAnswer(httpClient.remote(post, |old(httpClient.log)|))
    {
      var request := TextRequest(prompt);
      var endpoint := Endpoint(model, apiKey);
      var reply := httpClient.PostAsJson(endpoint, request);
      r := ReadAnswer(reply);
    }

    /** Reads the image at `imagePath`, posts it with the prompt, and returns the first text
        of the answer. A missing file is reported before the extension is looked at, and
        neither failure posts anything. */
    method GenerateTextWithImagePath(prompt: string, imagePath: string, model: GeminiModel,
                                     fs: FileSystem, toBase64: seq<byte> -> string)
      returns (r: Result<Option<string>, ClientError>)
      modifies httpClient
      ensures !fs.Exists(imagePath) ==>
                && r == Failure(FileNotFoundError("Image file not found: " + imagePath))
                && httpClient.log == old(httpClient.log)
      ensures fs.Exists(imagePath) && GetMimeType(imagePath).Failure? ==>
                && r == Failure(GetMimeType(imagePath).error)
                && httpClient.log == old(httpClient.log)
      ensures fs.Exists(imagePath) && GetMimeType(imagePath).Success? ==>
                var request := ImageRequest(prompt, GetMimeType(imagePath).value, toBase64(fs.ReadAllBytes(imagePath)));
                var post := Post(Endpoint(model, apiKey), EncodeRequest(request));
                && httpClient.log == old(httpClient.log) + [post]
                && r == ReadAnswer(httpClient.remote(post, |old(httpClient.log)|))
    {
      if !fs.Exists(imagePath) {
        return Failure(FileNotFoundError("Image file not found: " + imagePath));
      }
      var imageBytes := fs.ReadAllBytes(imagePath);
      var base64Image := toBase64(imageBytes);
      var mimeType := GetMimeType(imagePath);
      if mimeType.Failure? {
        return Failure(mimeType.error);
      }
      var request := ImageRequest(prompt, mimeType.value, base64Image);
      var endpoint := Endpoint(model, apiKey);
      var reply := httpClient.PostAsJson(endpoint, request);
      r := ReadAnswer(reply);
    }

    /** Posts an already encoded image with the prompt and returns the first text of the
        answer. Null, empty or white-space data is refused before anything is posted. */
    method GenerateTextWithImageBase64(prompt: string, base64Image: Option<string>, mimeType: string,
                                       model: GeminiModel)
      returns (r: Result<Option<string>, ClientError>)
      modifies httpClient
      ensures IsNullOrWhiteSpace(base64Image) ==>
                && r == Failure(ArgumentError(Base64Message, "base64Image"))
                && httpClient.log == old(httpClient.log)
      ensures !IsNullOrWhiteSpace(base64Image) ==>
                var post := Post(Endpoint(model, apiKey), EncodeRequest(ImageRequest(prompt, mimeType, base64Image.value)));
                && httpClient.log == old(httpClient.log) + [post]
                && r == ReadAnswer(httpClient.remote(post, |old(httpClient.log)|))
    {
      if IsNullOrWhiteSpace(base64Image) {
        return Failure(ArgumentError(Base64Message, "base64Image"));
      }
      var request := ImageRequest(prompt, mimeType, base64Image.value);
      var endpoint := Endpoint(model, apiKey);
      var reply := httpClient.PostAsJson(endpoint, request);
      r := ReadAnswer(reply);
    }
  }
}
