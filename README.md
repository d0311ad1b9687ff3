# UGemini client core, modelled in Dafny

UGemini is a thin C# client for the Gemini generative-language HTTP API. This project models the deterministic core beneath its HTTP and JSON plumbing:

- the **model catalog**: a closed set of five models, each with a wire path `models/<name>`;
- the **request and response schema**: a request holds contents, a content holds parts, and a part holds an optional text and optional inline data. The rule that leaves a missing field off the wire is modelled as an encoder to a JSON value tree. A reader is the encoder's partner, and a round-trip lemma connects the two;
- the **client**: its construction, the requests built by the three `Generate*` operations, the endpoint URL, MIME-type inference from a file extension, the input checks and their order, and extraction of the first text of the answer.

Modules, one per source file plus helpers:

| module | file | models |
|---|---|---|
| `Wrappers` | Wrappers.dfy | `Option` (standing for C# `null`) and `Result` (standing for a thrown exception) |
| `Enums` | Enums.dfy | `src/UGemini/Enums/GeminiModel.cs` |
| `Platform` | Platform.dfy | the .NET library behaviour the client relies on: `ToLowerInvariant`, `string.IsNullOrWhiteSpace`, `Path.GetExtension`, and the file system as a value |
| `Wire` | Wire.dfy | a JSON value as a tree, with member lookup |
| `RequestModel` | GeminiRequest.dfy | `src/UGemini/Models/GeminiRequest.cs` and its serialization attributes |
| `ResponseModel` | GeminiResponse.dfy | `src/UGemini/Models/GeminiResponse.cs` |
| `Client` | GeminiClient.dfy | `src/UGemini/GeminiClient.cs` |

The transport is a class, `Client.Transport`. Its field `log` records every post made through it: the URL and the JSON body. It answers from `remote`, a function standing for the remote service. That function receives the post and the number of posts made before it. Because of the log, each `Generate*` method can state exactly what it sent. On every validation failure the log is unchanged, so nothing was sent; on the success path exactly one post is added. The key and the transport are `const` fields of `Client.GeminiClient`, so nothing can reassign them after construction. A C# constructor can throw, but a Dafny constructor cannot fail. So the null check on the key lives in the static factory `GeminiClient.Create`, which returns a `Result`.

Two facts about the source shape the schema:

- A part's `Text` and `InlineData` are independently nullable, so the model keeps both as independent `Option`s. Nothing enforces that exactly one of them is set.
- The wire names `contents`, `parts`, `candidates` and `content` have no attribute in the source. They come from the camel-case policy that `PostAsJsonAsync` and `ReadFromJsonAsync` use by default.

## Model

| member | source | states |
|---|---|---|
| `Enums.ToModelName` | src/UGemini/Enums/GeminiModel.cs:23-37 | total over the closed enum (the throwing arm has no counterpart); every name starts with `models/`, is longer than that prefix, and contains no `:` |
| `Enums.CatalogHasFiveModels` | src/UGemini/Enums/GeminiModel.cs:14-21 | the catalog has exactly five variants, and every model is one of them |
| `Enums.ToModelNameInjective` | src/UGemini/Enums/GeminiModel.cs:31-35 | distinct models have distinct wire names |
| `Enums.Gemini20FlashName` | src/UGemini/Enums/GeminiModel.cs:26-31 | `Gemini20Flash` maps to `models/gemini-2.0-flash`, as documented |
| `Platform.ToLowerInvariant` | src/UGemini/GeminiClient.cs:195 | same length, and each character lower-cased in place |
| `Platform.ToLowerInvariantIdempotent` | src/UGemini/GeminiClient.cs:195 | lower-casing twice equals lower-casing once |
| `Platform.FileSystem.Exists` | src/UGemini/GeminiClient.cs:106 | definition only: a path exists exactly when the file system holds a file under it |
| `Platform.FileSystem.ReadAllBytes` | src/UGemini/GeminiClient.cs:109 | definition only: the bytes of an existing file; callable only on a path that exists |
| `Platform.IsWhiteSpace` | src/UGemini/GeminiClient.cs:155 | space, tab, line feed and carriage return are white space; no character of the base64 alphabet is |
| `Platform.IsNullOrWhiteSpace` | src/UGemini/GeminiClient.cs:155 | definition only: null, or every character white space (so the empty string too) |
| `Platform.WhiteSpaceRefused` | src/UGemini/GeminiClient.cs:155 | null, the empty string and any string of spaces, tabs and line breaks are refused |
| `Platform.Base64TextAccepted` | src/UGemini/GeminiClient.cs:155 | non-empty base64 text passes, whatever is put before or after it |
| `Platform.WhiteSpaceOfConcat` | src/UGemini/GeminiClient.cs:155 | a joined string is white space exactly when both halves are |
| `Platform.LastMark` | src/UGemini/GeminiClient.cs:195 | finds the last `.` or `/` before a bound, or reports that there is none |
| `Platform.GetExtension` | src/UGemini/GeminiClient.cs:195 | a non-empty result is the suffix starting at a `.` that is not the last character and is followed by no `.` or `/`; the result is empty exactly when no such `.` exists |
| `Platform.ExtensionFrom` | src/UGemini/GeminiClient.cs:195 | such a `.` is unique, so it determines the extension |
| `Platform.ExtensionOfLower` | src/UGemini/GeminiClient.cs:195 | the extension of the lower-cased path is the lower-cased extension |
| `RequestModel.EncodeInlineData` | src/UGemini/Models/GeminiRequest.cs:42-48 | inline data always writes two members, `mime_type` and `data`, carrying the MIME type and the base64 text |
| `RequestModel.EncodePart` | src/UGemini/Models/GeminiRequest.cs:26-35 | key `text` is present exactly when the text is; key `inline_data` is present exactly when the inline data is; no other key appears, and no member is written as null |
| `RequestModel.EncodeContent` | src/UGemini/Models/GeminiRequest.cs:18-21 | a content item writes exactly one member, `parts`, holding its written parts in order |
| `RequestModel.EncodeRequest` | src/UGemini/Models/GeminiRequest.cs:10-13 | the posted body has exactly one member, `contents`, holding the written content items in order |
| `RequestModel.EncodeParts` | src/UGemini/Models/GeminiRequest.cs:18-21 | parts are written one for one, in order |
| `RequestModel.EncodeContents` | src/UGemini/Models/GeminiRequest.cs:10-13 | contents are written one for one, in order |
| `RequestModel.PartRoundTrip` | src/UGemini/Models/GeminiRequest.cs:26-48 | reading a written part gives back the same part |
| `RequestModel.PartsRoundTrip` | src/UGemini/Models/GeminiRequest.cs:18-21 | reading written parts gives back the same parts in the same order |
| `RequestModel.ContentRoundTrip` | src/UGemini/Models/GeminiRequest.cs:18-21 | reading a written content item gives back the same item |
| `RequestModel.ContentsRoundTrip` | src/UGemini/Models/GeminiRequest.cs:10-13 | reading written contents gives back the same contents in the same order |
| `RequestModel.RequestRoundTrip` | src/UGemini/Models/GeminiRequest.cs:10-48 | reading a written request gives back the same request |
| `RequestModel.Defaults` | src/UGemini/Models/GeminiRequest.cs:10-48 | a fresh request has no contents and a fresh content has no parts; a fresh part writes `{}`; fresh inline data is `image/png` with empty data; a body that omits every member reads back as these defaults |
| `Client.TextRequest` | src/UGemini/GeminiClient.cs:67-79 | one content holding one part, whose text is the prompt and which has no inline data |
| `Client.ImageRequest` | src/UGemini/GeminiClient.cs:112-132 | one content holding two parts in order: first the prompt with no inline data, then the given MIME type and base64 text with no text |
| `Client.TextRequestOnTheWire` | src/UGemini/GeminiClient.cs:67-79 | the exact body posted for a text-only call, which has no `inline_data` member |
| `Client.ImageRequestOnTheWire` | src/UGemini/GeminiClient.cs:158-178 | the exact body posted for an image call: the text part first, then the inline-data part |
| `Client.Endpoint` | src/UGemini/GeminiClient.cs:81 | the URL is the base URL, then the model path, then `:generateContent?key=`, then the key, each at its stated position |
| `Client.ColonIndexAfter` | src/UGemini/GeminiClient.cs:81 | in a name with no `:` followed by `:`, the first `:` sits right after the name |
| `Client.EndpointTail` | src/UGemini/GeminiClient.cs:81 | what follows the base URL is the model path, the query and the key |
| `Client.EndpointInjective` | src/UGemini/GeminiClient.cs:81 | two endpoints are equal only when their models and keys are equal |
| `Client.GetMimeType` | src/UGemini/GeminiClient.cs:193-204 | succeeds exactly when the lower-cased extension is `.png`, `.jpg`, `.jpeg` or `.webp`; the result is `image/png`, `image/jpeg` or `image/webp`, and it is `image/png` exactly for `.png`, `image/jpeg` exactly for `.jpg` and `.jpeg`, and `image/webp` exactly for `.webp`; any other extension is a not-supported error naming the lower-cased extension |
| `Client.MimeTypeIgnoresCase` | src/UGemini/GeminiClient.cs:195 | lower-casing the path never changes the outcome |
| `Client.UpperCaseExtensionAccepted` | src/UGemini/GeminiClient.cs:195-198 | `photo.PNG` gives `image/png` |
| `Client.GifRefused` | src/UGemini/GeminiClient.cs:202 | `anim.gif` is refused with `Unsupported image format: .gif` |
| `Client.DotInDirectoryIgnored` | src/UGemini/GeminiClient.cs:195 | a `.` in a directory name is not an extension, so `images.png/raw` is refused |
| `Client.FirstOrDefault` | src/UGemini/GeminiClient.cs:87 | the first element of a list, or nothing when the list is empty |
| `Client.FirstText` | src/UGemini/GeminiClient.cs:87 | a text comes back exactly when the response has candidates, the first candidate has content, that content has parts, and the first part has text; the text returned is that part's text |
| `Client.OnlyFirstCandidateCounts` | src/UGemini/GeminiClient.cs:87 | later candidates never affect the answer |
| `Client.LaterPartsIgnored` | src/UGemini/GeminiClient.cs:87 | a first part without text gives no answer, even when later parts or candidates hold text |
| `Client.MissingLinksGiveNothing` | src/UGemini/GeminiClient.cs:87 | absent candidates, an empty candidate list, absent content and an empty part list each give no answer rather than an error |
| `Client.EchoedContentGivesPrompt` | src/UGemini/Models/GeminiResponse.cs:17-20 | candidates carry the request's content type, so a response echoing a built request's content answers with its prompt |
| `Client.ReadAnswer` | src/UGemini/GeminiClient.cs:83-87 | a failed send or a status outside 200-299 is an HTTP error; an unreadable body is a JSON error; a null body gives no text; any other body gives its first text |
| `Client.IsSuccessStatusCode` | src/UGemini/GeminiClient.cs:84 | definition only: the statuses 200 to 299, the ones `EnsureSuccessStatusCode` lets through |
| `Client.Transport.constructor` | src/UGemini/GeminiClient.cs:54 | a fresh transport keeps the given service and has an empty log |
| `Client.Transport.PostAsJson` | src/UGemini/GeminiClient.cs:83 | appends exactly one post, holding the URL and the encoded request; returns the service's reply to that post |
| `Client.GeminiClient.constructor` | src/UGemini/GeminiClient.cs:51-55 | stores the key and the transport unchanged |
| `Client.GeminiClient.Create` | src/UGemini/GeminiClient.cs:51-55 | fails with a null-argument error on `apiKey` exactly when the key is absent; otherwise stores the key unchanged, uses the given transport, or a fresh one with an empty log when none is given |
| `Client.GeminiClient.GenerateText` | src/UGemini/GeminiClient.cs:65-88 | posts exactly one text-only request to the model's endpoint; the result is the reading of the reply to that post |
| `Client.GeminiClient.GenerateTextWithImagePath` | src/UGemini/GeminiClient.cs:104-141 | a missing file is a not-found error whatever its extension; an existing file with an unsupported extension is a not-supported error; neither failure posts anything; otherwise posts exactly one image request, carrying the inferred MIME type and the file's base64 text |
| `Client.GeminiClient.GenerateTextWithImageBase64` | src/UGemini/GeminiClient.cs:153-187 | null, empty or white-space data is an argument error, and nothing is posted; otherwise posts exactly one image request carrying the caller's MIME type and data, unchecked; the prompt is never checked |

## Left out

- HTTP transport: `PostAsJsonAsync`, `EnsureSuccessStatusCode` and `new HttpClient()` are network I/O. They are modelled by `Client.Transport`, whose `remote` function stands for the service. A send that fails and a send that times out both become `HttpRequestError(None)`.
- JSON text: the model works on JSON value trees and does not write or parse JSON text. The reply reaches the client already decoded (`Client.Body`): a response, a null body, or an unreadable body.
- `RequestModel.DecodeRequest` and the other readers: they match keys exactly, although the web defaults match them without regard to case. They take the last of any duplicate key. They do not model a `null` in place of a list, or a `null` element inside one.
- File system: `File.Exists` and `File.ReadAllBytes` become a `Platform.FileSystem` value. A read that fails after the existence check, and the `Task.Run` wrapper, are not modelled.
- Base64: `Convert.ToBase64String` implements section 4 of RFC 4648. It is passed in as the function `toBase64` and is not modelled or verified here.
- Platform.GetExtension: follows the Unix flavour of `Path.GetExtension`, with `/` as the only separator. On Windows `\` is also a separator. The two differ only in which unsupported-extension message is raised.
- Platform.ToLowerInvariant: lower-cases the ASCII letters only, one character at a time through `Platform.LowerChar`. Full invariant lower-casing maps no non-ASCII character onto the letters of `.png`, `.jpg`, `.jpeg` or `.webp`, so acceptance does not change; only the extension named in the error message can differ.
- Platform.IsWhiteSpace: Dafny characters are Unicode scalar values, whereas .NET `char` is a UTF-16 code unit.
- Null `prompt`, `imagePath` and `mimeType`: the source declares them non-nullable and never checks them, so they are plain strings here. Only `apiKey` and `base64Image`, which the source does check for null, are `Option`s.
- Client.ReadAnswer: the status code is kept, but the rest of the `HttpRequestException` is not.
- Client.GeminiClient.GenerateTextWithImageBase64: the error keeps the message and the parameter name separately. .NET appends the parameter name to the message text.
- async/await, cancellation, and the sharing of one client across concurrent calls are scheduling, not logic. The two overloads of `GenerateTextWithImageAsync` are named `GenerateTextWithImagePath` and `GenerateTextWithImageBase64`, and the `Async` suffix is dropped.
- `examples/ConsoleExample/Program.cs` is a demo that only does console and network I/O, so it is not part of this model.
