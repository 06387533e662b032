# Multi-angle 3D asset generator: a Dafny model of its generation pipeline

The application lets a user upload a photo and name an object in it. It then
asks a generative-AI service for three things:

1. a description of the object;
2. eight photorealistic renders of the object, one per camera viewpoint;
3. an ASCII STL mesh text.

It then shows the renders and the mesh. This project models the pipeline
behind that and proves what it does:

- `services/geminiService.ts`:
  - the description request;
  - the render loop, which sends eight viewpoint prompts in slices of four and
    appends each slice's images to the output in place;
  - the markdown clean-up of the STL text, as the code has it, together with
    the clean-up it evidently intends (see "## Findings");
  - `generate3dAssets`, which runs both branches and turns any failure into one
    fixed error.
- `App.tsx`: the component's three pieces of state (`appState`,
  `generatedAssets`, `error`), its two handlers, and the choice of what to
  render.

The service is a parameter. A value of type `GeminiService.Ai` holds two
functions. They say how a `generateContent` request and a `generateImages`
request settle: resolved with the response text or the image bytes, or
rejected with what was thrown. The promise's outcome is
`Types.Settled`. What JavaScript throws is `Types.Thrown`: an `Error` with a
message, or something else.

Files:

- `types.dfy` (module `Types`): the application state, the assets record,
  `Option`, `Thrown` and `Settled`.
- `jsstring.dfy` (module `JsString`): the JavaScript string built-ins the code
  relies on, over `seq<char>`:
  - `startsWith` and `endsWith`;
  - `trim`, with the ECMAScript whitespace set;
  - `indexOf`, and `split`/`join` on one character;
  - `slice` with clamping.
- `gemini_service.dfy` (module `GeminiService`): the four service functions.
- `prompt_wording.dfy` (module `PromptWording`): the exact wording of the long
  prompts and of the system instruction. The service refers to each prompt
  only by its template and its argument (`Prompt`, `SystemInstruction`). This
  module gives the text those expand to.
- `app.dfy` (module `App`): the `try` block of `handleGenerate` as a function
  (`Generation`); the class `AppComponent`, with fields for the three state
  hooks and methods for the two handlers; and `RenderContent`.

The render loop is `GeminiService.RenderInBatches`, a `while` loop over any
list of viewpoints. `GeminiService.GenerateRenderedImages` runs it on the eight
viewpoints of the source. The loop invariant says two things:

- the images collected so far are exactly those of the prefix of viewpoints
  handled so far, awaited all together;
- the slices formed so far are the first batches of that prefix.

`AwaitAllAppend` proves that awaiting two lists one after the other, stopping
at the first rejection, is awaiting their concatenation. From it, the method's
result is `RenderedImages`: all eight prompts awaited together, with one image
per viewpoint in viewpoint order, and no images at all if any request fails.

`App.AppComponent.HandleGenerate` keeps a ghost history of the states the
component shows. Two states are added per call: the spinner, with error and
assets cleared; then the settled state. Every state shown keeps two
invariants:

- an error exists only on the upload screen;
- assets exist exactly on the result screen.

## Model

| member | source | states |
|---|---|---|
| `JsString.StartsWith` | services/geminiService.ts:114-116 | definition: `s.startsWith(p)` holds exactly when `s` begins with the characters of `p`, in order |
| `JsString.EndsWith` | services/geminiService.ts:119 | definition: `s.endsWith(p)` holds exactly when `s` ends with the characters of `p`, in order |
| `JsString.Trim` | services/geminiService.ts:122 | `trim` as `trimEnd` then `trimStart`; specified by `TrimRemovesExactlyEdgeWhitespace`, `TrimOfPadded`, `TrimOfTrimmed` and `TrimKeepsLeadingChar` |
| `JsString.TrimStart` | services/geminiService.ts:122 | the result is a suffix of the input; everything cut off is whitespace; the result does not begin with whitespace |
| `JsString.TrimEnd` | services/geminiService.ts:122 | the result is a prefix of the input; everything cut off is whitespace; the result does not end with whitespace |
| `JsString.TrimRemovesExactlyEdgeWhitespace` | services/geminiService.ts:122 | `trim` leaves a string with no whitespace at either end, and the input is that string with one whitespace run before it and one after |
| `JsString.TrimOfPadded` | services/geminiService.ts:122 | wrapping a trimmed string in whitespace on both sides and trimming gives the string back |
| `JsString.TrimOfTrimmed` | services/geminiService.ts:122 | `trim` leaves a string that has no whitespace at either end unchanged |
| `JsString.TrimKeepsLeadingChar` | services/geminiService.ts:122 | `trim` keeps a first character that is not whitespace, at the front of its result |
| `JsString.IndexOf` | App.tsx:26 | `None` exactly when the character is absent; otherwise the index of the first occurrence |
| `JsString.Split` | App.tsx:26 | at least one field; no field contains the separator; exactly one field when the separator does not occur |
| `JsString.JoinSplit` | App.tsx:26 | joining the fields of a split with the separator gives back the original string |
| `JsString.SplitJoin` | App.tsx:26 | splitting a join of one or more separator-free fields gives back the fields |
| `JsString.Slice` | services/geminiService.ts:64 | `slice(start, end)` is the slice when both bounds are in range; it is clamped to the end of the input; it is empty when `end <= start` or when `start` is past the end |
| `GeminiService.FileToGenerativePart` | services/geminiService.ts:11-18 | definition: the inline image part carries the payload and the MIME type unchanged |
| `GeminiService.GetObjectDescription` | services/geminiService.ts:20-45 | the description request's outcome, passed through; its prompt is stated by `PromptWording.DescriptionPromptNamesObject` |
| `PromptWording.PromptText` | services/geminiService.ts:27-36 | the exact text of the description prompt, and of the STL prompt at lines 100-102; specified by `DescriptionPromptNamesObject` and `StlPromptCarriesDescription` |
| `PromptWording.InstructionText` | services/geminiService.ts:92-98 | definition: the exact text of the STL request's system instruction |
| `PromptWording.DescriptionPromptNamesObject` | services/geminiService.ts:27 | the object's name sits in the description prompt right after its opening words `Identify the '` |
| `PromptWording.StlPromptCarriesDescription` | services/geminiService.ts:100-102 | the whole description sits in the STL prompt right after its opening paragraph |
| `GeminiService.RenderPrompt` | services/geminiService.ts:66 | the render prompt template for one viewpoint; specified by `RenderPromptEmbedsInputs` |
| `GeminiService.RenderPromptEmbedsInputs` | services/geminiService.ts:65-67 | each render prompt names its viewpoint at a fixed offset and ends with the full description |
| `GeminiService.Prompts` | services/geminiService.ts:65-67 | one prompt per viewpoint of the batch, in batch order, each built from that viewpoint and the description |
| `GeminiService.RenderImage` | services/geminiService.ts:71-82 | one image request, its bytes behind the PNG data-URL header; specified per viewpoint by `AllOrNothing` |
| `GeminiService.AwaitAll` | services/geminiService.ts:70-83 | `Promise.all` over the image requests of a slice; specified by `AwaitAllMeaning` and `AwaitAllAppend` |
| `GeminiService.AwaitAllMeaning` | services/geminiService.ts:70-83 | `Promise.all` over the image requests resolves exactly when every request resolves, with as many images as prompts, image k coming from prompt k; a rejection carries the reason of some failed request |
| `GeminiService.AwaitAllAppend` | services/geminiService.ts:63-86 | awaiting list a and then list b is awaiting a + b: a rejection in a is the result; otherwise a rejection in b is the result; otherwise the images of a followed by the images of b |
| `GeminiService.Batches` | services/geminiService.ts:63-64 | every batch has 1 to 4 viewpoints, all but the last have exactly 4, and the batches concatenate back to the viewpoint list |
| `GeminiService.BatchesExtend` | services/geminiService.ts:63-64 | after a whole number of full batches, appending up to four viewpoints adds exactly one batch |
| `GeminiService.BatchStep` | services/geminiService.ts:63-85 | one loop step: the batch list grows by the new slice, and the prefix's images are the previous images followed by the slice's images, or the slice's rejection |
| `GeminiService.PrefixRejection` | services/geminiService.ts:70-88 | a rejected prefix of the viewpoints rejects the whole run for the same reason, so no partial image list is returned |
| `GeminiService.ViewpointBatches` | services/geminiService.ts:49-64 | the eight viewpoints form two slices of four: the first four and the last four |
| `GeminiService.RenderInBatches` | services/geminiService.ts:60-88 | the batched loop settles exactly as all prompts awaited together; on success the slices it formed are `Batches` of the viewpoint list; on a rejection they are the batches before the slice that failed, and the result is that slice's rejection |
| `GeminiService.GenerateRenderedImages` | services/geminiService.ts:47-89 | resolves exactly when all eight image requests resolve; then it holds eight images, image k being `data:image/png;base64,` followed by the bytes for viewpoint k, formed from two slices of four |
| `GeminiService.AllOrNothing` | services/geminiService.ts:47-89 | the same per-viewpoint facts, derived from the specification function `RenderedImages` |
| `GeminiService.CleanStlAsWritten` | services/geminiService.ts:112-122 | the clean-up as the code has it: `StripOpeningFenceAsWritten` (`substring(5)` after the tagged fence, `substring(3)` after a plain one), then `StripClosingFence`, then `trim`; specified by `CleanStlIsTrimmedSlice`, `CleanStlAsWrittenNoFence`, `CleanStlAsWrittenBeginsWithL`, `CleanStlAsWrittenKeepsTagLetter` and `CleanStlUnwrapsFence` |
| `GeminiService.CleanStlAsWrittenNoFence` | services/geminiService.ts:113-122 | a text with no fence at either end comes out as just its `trim`, in both versions |
| `GeminiService.CleanStlAgreesOffTag` | services/geminiService.ts:114-118 | the as-written and the corrected clean-up give the same result on every text that does not open with the tagged fence |
| `GeminiService.CleanStlAsWrittenBeginsWithL` | services/geminiService.ts:114-122 | as written, every text that opens with the tagged fence cleans to a non-empty text that begins with the letter l |
| `GeminiService.CleanStlAsWrittenKeepsTagLetter` | services/geminiService.ts:114-122 | as written, a body whose opening fence carries the `stl` tag comes back as the letter l followed by the whitespace and the body |
| `GeminiService.CleanStl` | services/geminiService.ts:112-122 | the corrected clean-up, which drops the whole tagged fence; specified by `CleanStlUnwrapsTaggedFence`, `CleanStlUnwrapsFence` and `CleanStlIsTrimmedSlice` |
| `GeminiService.CleanStlUnwrapsTaggedFence` | services/geminiService.ts:112-122 | with the tag removed whole, a trimmed body whose opening fence carries the `stl` tag comes back exactly, whatever whitespace lies inside the fences |
| `GeminiService.CleanStlUnwrapsFence` | services/geminiService.ts:116-122 | a trimmed body between plain fences comes back exactly, in both the as-written and the corrected clean-up |
| `GeminiService.CleanStlIsTrimmedSlice` | services/geminiService.ts:112-122 | for the clean-up as written and for the corrected one, the cleaned text is a contiguous piece of the response text and has no whitespace at either end |
| `GeminiService.CleanStlNotIdempotent` | services/geminiService.ts:112-122 | a body inside two pairs of plain fences loses one pair per pass in both versions, so cleaning twice differs from cleaning once |
| `GeminiService.GenerateStlContent` | services/geminiService.ts:91-123 | the STL request's outcome, cleaned as the code does it; specified by `GenerateStlContentOutcome` |
| `GeminiService.GenerateStlContentOutcome` | services/geminiService.ts:104-122 | the STL text is a trimmed piece of the response text, and begins with a stray l when the response opens with the tagged fence; an undefined response text fails with the TypeError; a failed request passes its reason on |
| `GeminiService.Assets3d` | services/geminiService.ts:126-137 | what `generate3dAssets` settles with; specified by `Assets3dAllOrNothing` |
| `GeminiService.Assets3dAllOrNothing` | services/geminiService.ts:126-137 | `generate3dAssets` resolves exactly when both branches resolve, with their results and eight images; any failure becomes the one fixed error message |
| `GeminiService.Generate3dAssets` | services/geminiService.ts:126-138 | the method settles as `Assets3d`: both branches run, and their results are assembled or replaced by the fixed error |
| `App.ReadAsBase64` | App.tsx:22-35 | the file-reader promise: the payload of a string result, the 'Failed to read file as base64 string.' error for a non-string result, a non-Error for an error event; its outcomes are stated by `GenerationFailures` |
| `App.Base64Payload` | App.tsx:26 | `split(',')[1]` is defined exactly when the data URL has a comma, and it contains no comma |
| `App.Base64PayloadOfJoin` | App.tsx:26 | a data URL made of comma-free pieces yields its second piece |
| `App.Base64PayloadOfDataUrl` | App.tsx:26 | `header,payload` yields `payload` |
| `App.Generation` | App.tsx:21-46 | the try block of `handleGenerate`; specified by `GenerationSucceeds` and `GenerationFailures` |
| `App.ErrorMessage` | App.tsx:49 | definition: the message of an `Error`, otherwise 'An unknown error occurred.' |
| `App.Truthy` | App.tsx:39 | definition: a description passes the `!description` test exactly when it is defined and not empty |
| `App.GenerationSucceeds` | App.tsx:21-46 | the try block succeeds exactly when the file reads as a string, the description comes back non-empty, and both asset branches succeed; the assets are then those of that description, with eight images |
| `App.GenerationFailures` | App.tsx:21-49 | a non-string read gives 'Failed to read file as base64 string.'; a reader error gives a non-Error; a failed description passes its reason through; an empty or missing description gives 'Could not generate a description for the object.'; a failed asset generation gives the fixed message |
| `App.AssetsOnlyAfterDescription` | App.tsx:35-43 | asset generation is requested only as the second call, right after the description request, with the non-empty description that came back; it is requested exactly when such a description exists |
| `App.Settle` | App.tsx:44-50 | after the try block: the assets and no error on success, or the message of what was thrown and no assets on failure, and the state is consistent either way |
| `App.RenderContent` | App.tsx:60-71 | which component the page shows for a state; specified by `RenderConsistent` and `SettledView` |
| `App.RenderConsistent` | App.tsx:60-71 | a consistent state always renders something; the result screen appears exactly in RESULT, with the assets; an error appears only on the uploader |
| `App.SettledView` | App.tsx:44-71 | after a generation the page shows the result screen with the assets, or the uploader with the error message |
| `App.AppComponent.constructor` | App.tsx:12-14 | the initial state is IDLE, with no assets and no error |
| `App.AppComponent.HandleGenerate` | App.tsx:16-52 | shows the spinner with error and assets cleared, then settles as `Settle(Generation(...))`; it makes exactly the service calls `ServiceCalls`; both states it shows keep the invariants |
| `App.AppComponent.HandleReset` | App.tsx:54-58 | back to IDLE, with no assets and no error; the invariants are kept |

## Left out

- The service SDK is not modelled. `Ai` is a parameter, and its two functions
  say how each request settles. Nothing is assumed about the STL text the
  model writes: that it begins with `solid` and ends with `endsolid` is up to
  the model, not the code.
- Each image response is modelled as a string: the `imageBytes` of the first
  generated image. A response with no generated image throws a TypeError in
  the code; the model counts that as a rejected request.
- `Promise.all` is modelled sequentially. The requests in a slice, and the two
  branches of `generate3dAssets`, are awaited one after another, and the
  reason of a rejection is that of the first failure in list order. The code
  does not fix which failure wins. This matters only inside
  `generate3dAssets`, which replaces the reason by its fixed message.
- Concurrency, timing and cancellation are not modelled. A request that never
  settles hangs the pipeline; the model has no such case.
- The check at module load that `API_KEY` is set is not modelled. It is
  process configuration, not part of the pipeline.
- The `FileReader` callbacks are not modelled. `ImageFile.read` says how
  reading ends: a string result, a non-string result, or an error event. An
  error event is not an `Error`, so its message shows as
  'An unknown error occurred.'
- The TypeError that `startsWith` throws on an undefined `response.text` gets
  the message of the V8 engine (`UndefinedTextMessage`). Other engines word it
  differently. `generate3dAssets` replaces it in any case.
- `console.error` logging is not modelled.
- The UI components it renders are not modelled: the uploader, the loader and
  its timers, and the result display with its downloads. `RenderContent`
  returns which of them is shown and with what.
- `App.AppComponent.HandleGenerate`: its ghost history records one state
  per batch of setter calls. This relies on React 18 grouping the setters that
  run after an `await`. Earlier versions of React commit them one at a time.
  The contract does not model those intermediate renders.
- Idempotence of the clean-up is not claimed, because it does not hold:
  `GeminiService.CleanStlNotIdempotent` shows a text whose second cleaning
  differs from its first.
- The exact wording of the prompts matters to the service, not to the
  pipeline. It appears in `PromptWording`. The only properties proved about
  it are where the object's name and the description sit in the prompts.

## Findings

| source | as written | input that shows it | evidently intended | confidence | as-written member | corrected member |
|---|---|---|---|---|---|---|
| services/geminiService.ts:114-115 | after the six-character opening fence with the `stl` tag, `substring(5)` drops only five characters | a response of the tagged fence, a line break, `solid object`, a line break, `endsolid object`, a line break and the closing fence cleans to `l`, a line break, `solid object`, a line break, `endsolid object` | drop the whole tag, giving `solid object`, a line break, `endsolid object` | high (not executed) | `GeminiService.CleanStlAsWrittenKeepsTagLetter` | `GeminiService.CleanStlUnwrapsTaggedFence` |

`GeminiService.CleanStlAsWritten` is the clean-up as the code has it, with
`substring(5)`. It is what the pipeline runs: `GenerateStlContent`, and
through it `generate3dAssets` and the App, return its result, so a response
that opens with the tagged fence yields STL text that begins with a stray l
(`CleanStlAsWrittenBeginsWithL`). `GeminiService.CleanStl` is the intended
clean-up, which drops the whole tag and gives back the fenced body exactly
(`CleanStlUnwrapsTaggedFence`). The two agree on every text that does not
start with the tagged fence (`CleanStlAgreesOffTag`), and both keep a trimmed slice of the response (`CleanStlIsTrimmedSlice`).
