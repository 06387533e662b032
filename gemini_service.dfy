/** The generation service (services/geminiService.ts): one request that
    describes the object in the uploaded image, eight image requests issued
    in batches of four, one request for STL text whose markdown fences are
    cleaned off, and the wrapper that runs the last two and turns any failure
    into one fixed error.

    The generative-AI service itself is a parameter: a value of type `Ai`
    whose two functions say how each request settles. */
module GeminiService {
  import opened Types
  import opened JsString

  const TextModel := "gemini-2.5-flash"
  const ImageModel := "imagen-4.0-generate-001"

  /** An inline image part of a multimodal request. */
  datatype InlineData = InlineData(data: Option<string>, mimeType: string)

  /** The two long prompts of the service, by template and argument; their
      exact wording is given by module PromptWording. */
  datatype Prompt =
    | DescribeObject(objectName: string)
    | StlFromDescription(description: string)

  /** The system instruction of the STL request (its wording: module PromptWording). */
  datatype SystemInstruction = StlExpert

  /** The `contents` of a `generateContent` request: an image part and a text
      part, or a prompt alone. */
  datatype Contents = ImageAndText(image: InlineData, text: Prompt) | PromptOnly(prompt: Prompt)

  datatype ContentRequest = ContentRequest(model: string, contents: Contents, systemInstruction: Option<SystemInstruction>)

  datatype ImageRequest = ImageRequest(
    model: string, prompt: string, numberOfImages: nat, aspectRatio: string, outputMimeType: string)

  /** The service as the core sees it. `generateContent` settles with the
      response's `text`, which may be undefined; `generateImages` settles with
      the base64 `imageBytes` of the first generated image. */
  datatype Ai = Ai(
    generateContent: ContentRequest -> Settled<Option<string>>,
    generateImages: ImageRequest -> Settled<string>)

  // ---------------------------------------------------------------------------
  // Describing the object

  function FileToGenerativePart(base64: Option<string>, mimeType: string): InlineData {
    InlineData(base64, mimeType)
  }

  function DescriptionRequest(base64: Option<string>, mimeType: string, objectName: string): ContentRequest {
    ContentRequest(TextModel, ImageAndText(FileToGenerativePart(base64, mimeType), DescribeObject(objectName)), None)
  }

  /** `getObjectDescription`: the response text, as the service returns it. */
  function GetObjectDescription(ai: Ai, base64: Option<string>, mimeType: string, objectName: string): Settled<Option<string>> {
    ai.generateContent(DescriptionRequest(base64, mimeType, objectName))
  }

  // ---------------------------------------------------------------------------
  // Rendering the viewpoints

  const Viewpoints: seq<string> := [
    "front view",
    "back view",
    "left side view",
    "right side view",
    "top view",
    "bottom view",
    "front-left diagonal view at 45 degrees",
    "front-right diagonal view at 45 degrees"
  ]

  const BatchSize: nat := 4

  const RenderPromptHead := "Create a photorealistic 3D render of the following object from "
  const RenderPromptMiddle := " on a neutral grey studio background with soft lighting, optimal for 3D reconstruction: "
  const PngDataUrlPrefix := "data:image/png;base64,"

  /** The prompt for one viewpoint. */
  function RenderPrompt(viewpoint: string, description: string): string {
    RenderPromptHead + viewpoint + RenderPromptMiddle + description
  }

  /** Each render prompt names its viewpoint at a fixed place and ends with
      the whole description. */
  lemma RenderPromptEmbedsInputs(viewpoint: string, description: string)
    ensures var p := RenderPrompt(viewpoint, description);
      EmbedsAt(p, viewpoint, |RenderPromptHead|) && EndsWith(p, description)
  {
    var p := RenderPrompt(viewpoint, description);
    assert p[|RenderPromptHead|..|RenderPromptHead| + |viewpoint|] == viewpoint;
    assert p[|p| - |description|..] == description;
  }

  /** `batch.map(viewpoint => prompt)` */
  function Prompts(viewpoints: seq<string>, description: string): (prompts: seq<string>)
    ensures |prompts| == |viewpoints|
    ensures forall k :: 0 <= k < |viewpoints| ==> prompts[k] == RenderPrompt(viewpoints[k], description)
  {
    seq(|viewpoints|, k requires 0 <= k < |viewpoints| => RenderPrompt(viewpoints[k], description))
  }

  lemma PromptsAppend(a: seq<string>, b: seq<string>, description: string)
    ensures Prompts(a + b, description) == Prompts(a, description) + Prompts(b, description)
  {
  }

  function ImageRequestFor(prompt: string): ImageRequest {
    ImageRequest(ImageModel, prompt, 1, "1:1", "image/png")
  }

  /** The async callback of the batch: one image request, its bytes put
      behind a PNG data-URL header. */
  function RenderImage(ai: Ai, prompt: string): Settled<string> {
    match ai.generateImages(ImageRequestFor(prompt))
    case Rejected(e) => Rejected(e)
    case Resolved(bytes) => Resolved(PngDataUrlPrefix + bytes)
  }

  /** `Promise.all(prompts.map(RenderImage))`: all images, in the order of
      the prompts, or a rejection carrying the reason of one failed request.
      (The requests are modelled one after another; the reason chosen is that
      of the first failure in list order.) */
  function AwaitAll(ai: Ai, prompts: seq<string>): Settled<seq<string>>
  {
    if prompts == [] then Resolved([])
    else match RenderImage(ai, prompts[0])
      case Rejected(e) => Rejected(e)
      case Resolved(image) =>
        match AwaitAll(ai, prompts[1..])
        case Rejected(e) => Rejected(e)
        case Resolved(rest) => Resolved([image] + rest)
  }

  /** `Promise.all` resolves exactly when every request does, with one image
      per prompt in prompt order; a rejection carries the reason of a failed
      request. */
  lemma {:induction false} AwaitAllMeaning(ai: Ai, prompts: seq<string>)
    ensures AwaitAll(ai, prompts).Resolved? <==>
      forall k :: 0 <= k < |prompts| ==> RenderImage(ai, prompts[k]).Resolved?
    ensures AwaitAll(ai, prompts).Resolved? ==> |AwaitAll(ai, prompts).value| == |prompts|
    ensures AwaitAll(ai, prompts).Resolved? ==> forall k :: 0 <= k < |prompts| ==>
      RenderImage(ai, prompts[k]) == Resolved(AwaitAll(ai, prompts).value[k])
    ensures AwaitAll(ai, prompts).Rejected? ==>
      exists k :: 0 <= k < |prompts| && RenderImage(ai, prompts[k]) == Rejected(AwaitAll(ai, prompts).reason)
    decreases |prompts|
  {
    if prompts != [] {
      AwaitAllMeaning(ai, prompts[1..]);
      var r := AwaitAll(ai, prompts);
      var head, tail := RenderImage(ai, prompts[0]), AwaitAll(ai, prompts[1..]);
      if head.Rejected? {
        assert RenderImage(ai, prompts[0]) == Rejected(r.reason);
      } else if tail.Rejected? {
        var k :| 0 <= k < |prompts[1..]| && RenderImage(ai, prompts[1..][k]) == Rejected(tail.reason);
        assert RenderImage(ai, prompts[k + 1]) == Rejected(r.reason);
        assert !RenderImage(ai, prompts[k + 1]).Resolved?;
      } else {
        assert r.value == [head.value] + tail.value;
        forall k | 0 <= k < |prompts|
          ensures RenderImage(ai, prompts[k]) == Resolved(r.value[k])
        {
          if k > 0 {
            assert prompts[k] == prompts[1..][k - 1];
          }
        }
      }
    }
  }

  /** Awaiting two lists of prompts one after the other, stopping at the first
      rejection, is awaiting their concatenation. */
  lemma {:induction false} AwaitAllAppend(ai: Ai, a: seq<string>, b: seq<string>)
    ensures AwaitAll(ai, a).Rejected? ==> AwaitAll(ai, a + b) == AwaitAll(ai, a)
    ensures AwaitAll(ai, a).Resolved? && AwaitAll(ai, b).Rejected? ==> AwaitAll(ai, a + b) == AwaitAll(ai, b)
    ensures AwaitAll(ai, a).Resolved? && AwaitAll(ai, b).Resolved? ==>
      AwaitAll(ai, a + b) == Resolved(AwaitAll(ai, a).value + AwaitAll(ai, b).value)
  {
    if a == [] {
      assert a + b == b;
      assert AwaitAll(ai, a) == Resolved([]);
      if AwaitAll(ai, b).Resolved? {
        assert AwaitAll(ai, a).value + AwaitAll(ai, b).value == AwaitAll(ai, b).value;
      }
    } else {
      var ab := a + b;
      assert ab[0] == a[0] && ab[1..] == a[1..] + b;
      AwaitAllAppend(ai, a[1..], b);
      var head := RenderImage(ai, a[0]);
      var tail, whole := AwaitAll(ai, a[1..]), AwaitAll(ai, a[1..] + b);
      if head.Resolved? && tail.Resolved? {
        assert AwaitAll(ai, a) == Resolved([head.value] + tail.value);
        if whole.Resolved? {
          assert AwaitAll(ai, ab) == Resolved([head.value] + whole.value);
          assert [head.value] + (tail.value + AwaitAll(ai, b).value)
              == ([head.value] + tail.value) + AwaitAll(ai, b).value;
        }
      }
    }
  }

  /** What `generateRenderedImages` computes: all viewpoints' images, in
      viewpoint order, as if awaited together. */
  function RenderedImages(ai: Ai, description: string): Settled<seq<string>> {
    AwaitAll(ai, Prompts(Viewpoints, description))
  }

  /** The batches the loop forms: `s.slice(i, i + BatchSize)` for
      i = 0, BatchSize, 2 * BatchSize, ... while i < |s|. */
  function Batches(s: seq<string>): (batches: seq<seq<string>>)
    ensures forall k :: 0 <= k < |batches| ==> 0 < |batches[k]| <= BatchSize
    ensures forall k :: 0 <= k < |batches| - 1 ==> |batches[k]| == BatchSize
    ensures Flatten(batches) == s
    decreases |s|
  {
    if s == [] then []
    else
      var n := if |s| < BatchSize then |s| else BatchSize;
      var batches := [s[..n]] + Batches(s[n..]);
      assert batches[1..] == Batches(s[n..]);
      assert s == s[..n] + s[n..];
      batches
  }

  function Flatten(batches: seq<seq<string>>): seq<string> {
    if batches == [] then [] else batches[0] + Flatten(batches[1..])
  }

  /** Appending one more batch to a whole number of full batches. */
  lemma {:induction false} BatchesExtend(s: seq<string>, batch: seq<string>)
    requires |s| % BatchSize == 0
    requires 0 < |batch| <= BatchSize
    ensures Batches(s + batch) == Batches(s) + [batch]
    decreases |s|
  {
    if s == [] {
      assert s + batch == batch;
      assert batch[..|batch|] == batch && batch[|batch|..] == [];
    } else {
      var t := s + batch;
      assert t[..BatchSize] == s[..BatchSize];
      assert t[BatchSize..] == s[BatchSize..] + batch;
      BatchesExtend(s[BatchSize..], batch);
    }
  }

  function Min(a: nat, b: nat): nat {
    if a <= b then a else b
  }

  /** One more batch past a whole number of batches: it extends the batch
      list by itself, and awaiting the longer prefix is awaiting the shorter
      one, then the batch. */
  lemma BatchStep(ai: Ai, viewpoints: seq<string>, description: string, i: nat, next: nat)
    requires i % BatchSize == 0 && i < next <= |viewpoints| && next - i <= BatchSize
    ensures Batches(viewpoints[..next]) == Batches(viewpoints[..i]) + [viewpoints[i..next]]
    ensures var before, batch := AwaitAll(ai, Prompts(viewpoints[..i], description)), AwaitAll(ai, Prompts(viewpoints[i..next], description));
      before.Resolved? && batch.Resolved? ==>
        AwaitAll(ai, Prompts(viewpoints[..next], description)) == Resolved(before.value + batch.value)
    ensures var before, batch := AwaitAll(ai, Prompts(viewpoints[..i], description)), AwaitAll(ai, Prompts(viewpoints[i..next], description));
      before.Resolved? && batch.Rejected? ==> AwaitAll(ai, Prompts(viewpoints[..next], description)) == batch
  {
    assert viewpoints[..next] == viewpoints[..i] + viewpoints[i..next];
    BatchesExtend(viewpoints[..i], viewpoints[i..next]);
    PromptsAppend(viewpoints[..i], viewpoints[i..next], description);
    AwaitAllAppend(ai, Prompts(viewpoints[..i], description), Prompts(viewpoints[i..next], description));
  }

  lemma NextBatchStart(i: nat)
    requires i % BatchSize == 0
    ensures (i + BatchSize) % BatchSize == 0
  {
  }

  /** A rejected prefix rejects the whole list, for the same reason. */
  lemma PrefixRejection(ai: Ai, viewpoints: seq<string>, description: string, n: nat)
    requires n <= |viewpoints|
    ensures AwaitAll(ai, Prompts(viewpoints[..n], description)).Rejected? ==>
      AwaitAll(ai, Prompts(viewpoints, description)) == AwaitAll(ai, Prompts(viewpoints[..n], description))
  {
    assert viewpoints == viewpoints[..n] + viewpoints[n..];
    PromptsAppend(viewpoints[..n], viewpoints[n..], description);
    AwaitAllAppend(ai, Prompts(viewpoints[..n], description), Prompts(viewpoints[n..], description));
  }

  /** The loop of `generateRenderedImages` over any list of viewpoints:
      slices of `BatchSize` are each awaited together and their images
      appended in place to `allImages`; the first rejected slice aborts the
      whole loop. `batches` records the slices formed: on a rejection, those
      before the slice that failed. */
  method RenderInBatches(ai: Ai, viewpoints: seq<string>, description: string)
    returns (r: Settled<seq<string>>, ghost batches: seq<seq<string>>)
    ensures r == AwaitAll(ai, Prompts(viewpoints, description))
    ensures r.Resolved? ==> batches == Batches(viewpoints)
    ensures r.Rejected? ==> exists n: nat ::
      && n < |viewpoints| && n % BatchSize == 0
      && batches == Batches(viewpoints[..n])
      && AwaitAll(ai, Prompts(viewpoints[..n], description)).Resolved?
      && r == AwaitAll(ai, Prompts(Slice(viewpoints, n, n + BatchSize), description))
  {
    var allImages: seq<string> := [];
    batches := [];
    var i := 0;
    while i < |viewpoints|
      invariant i % BatchSize == 0
      invariant AwaitAll(ai, Prompts(viewpoints[..Min(i, |viewpoints|)], description)) == Resolved(allImages)
      invariant batches == Batches(viewpoints[..Min(i, |viewpoints|)])
      decreases |viewpoints| - i
    {
      var batch := Slice(viewpoints, i, i + BatchSize);
      var batchImages := AwaitAll(ai, Prompts(batch, description));
      ghost var next := Min(i + BatchSize, |viewpoints|);
      assert batch == viewpoints[i..next];
      BatchStep(ai, viewpoints, description, i, next);
      if batchImages.Rejected? {
        PrefixRejection(ai, viewpoints, description, next);
        r := Rejected(batchImages.reason);
        return;
      }
      allImages := allImages + batchImages.value;
      batches := batches + [batch];
      NextBatchStart(i);
      i := i + BatchSize;
    }
    assert viewpoints[..Min(i, |viewpoints|)] == viewpoints;
    r := Resolved(allImages);
  }

  /** The eight viewpoints form two slices of four. */
  lemma ViewpointBatches()
    ensures Batches(Viewpoints) == [Viewpoints[..4], Viewpoints[4..]]
  {
    var vs := Viewpoints;
    assert |vs| == 8;
    assert vs[4..][..4] == vs[4..] && vs[4..][4..] == [];
    assert Batches(vs[4..][4..]) == [];
    assert Batches(vs[4..]) == [vs[4..]];
  }

  /** `generateRenderedImages`: the batched loop over the eight viewpoints.
      It settles with one image per viewpoint, in viewpoint order, formed
      from two slices of four, or with a rejection as soon as any request
      fails. */
  method GenerateRenderedImages(ai: Ai, description: string) returns (r: Settled<seq<string>>, ghost batches: seq<seq<string>>)
    ensures r == RenderedImages(ai, description)
    ensures r.Resolved? <==> forall k :: 0 <= k < |Viewpoints| ==> ai.generateImages(ImageRequestFor(RenderPrompt(Viewpoints[k], description))).Resolved?
    ensures r.Resolved? ==> |r.value| == |Viewpoints|
    ensures r.Resolved? ==> forall k :: 0 <= k < |Viewpoints| ==>
      r.value[k] == PngDataUrlPrefix + ai.generateImages(ImageRequestFor(RenderPrompt(Viewpoints[k], description))).value
    ensures r.Resolved? ==> batches == Batches(Viewpoints) == [Viewpoints[..4], Viewpoints[4..]]
  {
    r, batches := RenderInBatches(ai, Viewpoints, description);
    AllOrNothing(ai, description, r);
    ViewpointBatches();
  }

  /** Unfolds `RenderedImages` into per-viewpoint facts. */
  lemma AllOrNothing(ai: Ai, description: string, r: Settled<seq<string>>)
    requires r == RenderedImages(ai, description)
    ensures r.Resolved? <==> forall k :: 0 <= k < |Viewpoints| ==> ai.generateImages(ImageRequestFor(RenderPrompt(Viewpoints[k], description))).Resolved?
    ensures r.Resolved? ==> |r.value| == |Viewpoints|
    ensures r.Resolved? ==> forall k :: 0 <= k < |Viewpoints| ==>
      r.value[k] == PngDataUrlPrefix + ai.generateImages(ImageRequestFor(RenderPrompt(Viewpoints[k], description))).value
  {
    var prompts := Prompts(Viewpoints, description);
    AwaitAllMeaning(ai, prompts);
    forall k | 0 <= k < |Viewpoints|
      ensures RenderImage(ai, prompts[k]).Resolved? <==> ai.generateImages(ImageRequestFor(RenderPrompt(Viewpoints[k], description))).Resolved?
    {
    }
  }

  // ---------------------------------------------------------------------------
  // STL text

  function StlRequest(description: string): ContentRequest {
    ContentRequest(TextModel, PromptOnly(StlFromDescription(description)), Some(StlExpert))
  }

  const Fence := "```"
  const StlFence := "```stl"

  /** The opening-fence step of the code: after "```stl" it drops 5
      characters, one fewer than the tag has, so the tag's `l` stays; after
      any other "```" it drops 3. */
  function StripOpeningFenceAsWritten(text: string): string {
    if StartsWith(text, StlFence) then text[5..]
    else if StartsWith(text, Fence) then text[3..]
    else text
  }

  /** The opening-fence step as intended: the whole tag is dropped. */
  function StripOpeningFence(text: string): string {
    if StartsWith(text, StlFence) then text[6..]
    else if StartsWith(text, Fence) then text[3..]
    else text
  }

  /** The closing-fence step: one trailing "```" is dropped. */
  function StripClosingFence(text: string): string {
    if EndsWith(text, Fence) then text[..|text| - |Fence|] else text
  }

  /** The markdown clean-up of `generateStlContent` as the code has it:
      opening fence, then closing fence, then `trim`. */
  function CleanStlAsWritten(text: string): string {
    Trim(StripClosingFence(StripOpeningFenceAsWritten(text)))
  }

  /** The clean-up with the opening tag removed whole. */
  function CleanStl(text: string): string {
    Trim(StripClosingFence(StripOpeningFence(text)))
  }

  /** A text with no fence at either end is only trimmed, in both versions. */
  lemma CleanStlAsWrittenNoFence(text: string)
    requires !StartsWith(text, Fence) && !EndsWith(text, Fence)
    ensures CleanStlAsWritten(text) == Trim(text)
    ensures CleanStl(text) == Trim(text)
  {
    TagOpensFence(text);
  }

  /** The tagged fence begins with the plain one. */
  lemma TagOpensFence(text: string)
    ensures StartsWith(text, StlFence) ==> StartsWith(text, Fence)
  {
    if StartsWith(text, StlFence) {
      assert text[..3] == StlFence[..3];
    }
  }

  /** The two versions differ only on texts that open with "```stl". */
  lemma CleanStlAgreesOffTag(text: string)
    requires !StartsWith(text, StlFence)
    ensures CleanStlAsWritten(text) == CleanStl(text)
  {
  }

  /** Dropping the closing fence of `inner + Fence` leaves `inner`. */
  lemma DropClosingFence(inner: string)
    ensures StripClosingFence(inner + Fence) == inner
  {
    var u := inner + Fence;
    assert u[|u| - |Fence|..] == Fence && u[..|u| - |Fence|] == inner;
  }

  /** The pieces of `open + pre + body + post + Fence` past the opening fence. */
  lemma FencedPieces(open: string, pre: string, body: string, post: string)
    ensures var text := open + pre + body + post + Fence;
      StartsWith(text, open) && text[|open|..] == pre + body + post + Fence
  {
    var text := open + pre + body + post + Fence;
    assert text == open + (pre + body + post + Fence);
  }

  /** As written, any text that opens with "```stl" cleans to a text that
      begins with the tag's `l`. */
  lemma CleanStlAsWrittenBeginsWithL(text: string)
    requires StartsWith(text, StlFence)
    ensures CleanStlAsWritten(text) != [] && CleanStlAsWritten(text)[0] == 'l'
  {
    var v := StripOpeningFenceAsWritten(text);
    assert v[0] == text[..6][5] == 'l';
    var u := StripClosingFence(v);
    if EndsWith(v, Fence) {
      assert v != Fence by {
        assert Fence[0] == '`';
      }
      assert u[0] == v[0];
    }
    TrimKeepsLeadingChar(u);
  }

  /** As written, a body fenced as "```stl ... ```" comes back with a stray
      `l` in front of it. */
  lemma CleanStlAsWrittenKeepsTagLetter(pre: string, body: string, post: string)
    requires AllWhitespace(pre) && AllWhitespace(post) && Trimmed(body) && body != []
    ensures CleanStlAsWritten(StlFence + pre + body + post + Fence) == "l" + pre + body
  {
    var text := StlFence + pre + body + post + Fence;
    FencedPieces(StlFence, pre, body, post);
    TagLetterKept(text, "l" + pre + body, post);
  }

  lemma TagLetterKept(text: string, kept: string, post: string)
    requires kept != [] && kept[0] == 'l' && Trimmed(kept) && AllWhitespace(post)
    requires StartsWith(text, StlFence) && text[6..] == kept[1..] + post + Fence
    ensures CleanStlAsWritten(text) == kept
  {
    assert text[5..] == kept + post + Fence by {
      assert text[5..] == [text[5]] + text[6..];
    }
    DropClosingFence(kept + post);
    assert kept + post == [] + kept + post;
    TrimOfPadded([], kept, post);
  }

  /** The corrected clean-up gives back exactly the body of a block fenced
      as "```stl ... ```", whatever whitespace surrounds it inside the fence. */
  lemma CleanStlUnwrapsTaggedFence(pre: string, body: string, post: string)
    requires AllWhitespace(pre) && AllWhitespace(post) && Trimmed(body)
    ensures CleanStl(StlFence + pre + body + post + Fence) == body
  {
    FencedPieces(StlFence, pre, body, post);
    DropClosingFence(pre + body + post);
    TrimOfPadded(pre, body, post);
  }

  /** A block fenced by plain "```" (any tag other than `stl` is left in
      place) comes back as its body, in both versions. */
  lemma CleanStlUnwrapsFence(pre: string, body: string, post: string)
    requires AllWhitespace(pre) && AllWhitespace(post) && Trimmed(body)
    requires !StartsWith(Fence + pre + body + post + Fence, StlFence)
    ensures CleanStlAsWritten(Fence + pre + body + post + Fence) == body
    ensures CleanStl(Fence + pre + body + post + Fence) == body
  {
    FencedPieces(Fence, pre, body, post);
    DropClosingFence(pre + body + post);
    TrimOfPadded(pre, body, post);
  }

  /** Both clean-ups only cut text away at the two ends, and what they keep
      has no whitespace at either end. */
  lemma CleanStlIsTrimmedSlice(text: string)
    ensures Trimmed(CleanStlAsWritten(text)) && exists a, b :: text == a + CleanStlAsWritten(text) + b
    ensures Trimmed(CleanStl(text)) && exists a, b :: text == a + CleanStl(text) + b
  {
    OpeningFenceCutsPrefix(text);
    CleanedSlice(text, StripOpeningFenceAsWritten(text));
    CleanedSlice(text, StripOpeningFence(text));
  }

  /** Both opening-fence steps keep a suffix of the text. */
  lemma OpeningFenceCutsPrefix(text: string)
    ensures var v := StripOpeningFenceAsWritten(text);
      |v| <= |text| && text == text[..|text| - |v|] + v
    ensures var v := StripOpeningFence(text);
      |v| <= |text| && text == text[..|text| - |v|] + v
  {
    if StartsWith(text, StlFence) {
      assert text == text[..5] + text[5..];
      assert text == text[..6] + text[6..];
    } else if StartsWith(text, Fence) {
      assert text == text[..3] + text[3..];
    } else {
      assert text == [] + text;
    }
  }

  /** The closing-fence step and `trim`, applied to a suffix `v` of the
      text, leave a trimmed slice of the text. */
  lemma CleanedSlice(text: string, v: string)
    requires |v| <= |text| && text == text[..|text| - |v|] + v
    ensures var c := Trim(StripClosingFence(v));
      Trimmed(c) && exists a, b :: text == a + c + b
  {
    var u := StripClosingFence(v);
    ClosingFenceCutsSuffix(v);
    TrimRemovesExactlyEdgeWhitespace(u);
    InnerSlice(text, v, u, Trim(u));
  }

  lemma ClosingFenceCutsSuffix(text: string)
    ensures var u := StripClosingFence(text);
      |u| <= |text| && text == u + text[|u|..]
  {
    if EndsWith(text, Fence) {
      assert text == text[..|text| - 3] + text[|text| - 3..];
    } else {
      assert text == text + [];
    }
  }

  /** A padded piece of a suffix-then-prefix cut is a slice of the whole. */
  lemma InnerSlice(text: string, v: string, u: string, c: string)
    requires |v| <= |text| && text == text[..|text| - |v|] + v
    requires |u| <= |v| && v == u + v[|u|..]
    requires exists pre, post :: PaddedWith(u, pre, c, post)
    ensures exists a, b :: text == a + c + b
  {
    var pre, post :| PaddedWith(u, pre, c, post);
    var x, y := text[..|text| - |v|], v[|u|..];
    assert v == pre + c + (post + y);
    assert text == (x + pre) + c + (post + y);
  }

  /** Cleaning twice is not cleaning once: a body inside two plain fences
      loses one fence per pass, in both versions. */
  lemma CleanStlNotIdempotent(body: string, once: string, twice: string)
    requires Trimmed(body) && !StartsWith(Fence + body + Fence, StlFence)
    requires once == Fence + body + Fence && twice == Fence + once + Fence
    ensures CleanStlAsWritten(twice) == once && CleanStlAsWritten(once) == body
    ensures CleanStl(twice) == once && CleanStl(once) == body
    ensures CleanStlAsWritten(CleanStlAsWritten(twice)) != CleanStlAsWritten(twice)
  {
    assert once[0] == '`' && once[|once| - 1] == '`';
    assert twice[3] == '`';
    assert Fence + [] + once + [] + Fence == twice;
    assert Fence + [] + body + [] + Fence == once;
    CleanStlUnwrapsFence([], once, []);
    CleanStlUnwrapsFence([], body, []);
    assert |body| < |once|;
  }

  /** The text the service returns: the response text cleaned as the code
      does it; an undefined response text makes `startsWith` throw a
      TypeError. */
  function GenerateStlContent(ai: Ai, description: string): Settled<string> {
    match ai.generateContent(StlRequest(description))
    case Rejected(e) => Rejected(e)
    case Resolved(None) => Rejected(Error(UndefinedTextMessage))
    case Resolved(Some(text)) => Resolved(CleanStlAsWritten(text))
  }

  /** The STL text is the response text with at most its fences and the
      whitespace around them cut from the ends, and it begins with a stray
      `l` when the response opens with "```stl"; an undefined response text
      fails with the TypeError, and a failed request with its own reason. */
  lemma GenerateStlContentOutcome(ai: Ai, description: string)
    ensures var response := ai.generateContent(StlRequest(description));
      response.Rejected? ==> GenerateStlContent(ai, description) == Rejected(response.reason)
    ensures ai.generateContent(StlRequest(description)) == Resolved(None) ==>
      GenerateStlContent(ai, description) == Rejected(Error(UndefinedTextMessage))
    ensures var response := ai.generateContent(StlRequest(description));
      response.Resolved? && response.value.Some? ==>
        && GenerateStlContent(ai, description).Resolved?
        && Trimmed(GenerateStlContent(ai, description).value)
        && exists a, b :: response.value.value == a + GenerateStlContent(ai, description).value + b
    ensures var response := ai.generateContent(StlRequest(description));
      response.Resolved? && response.value.Some? && StartsWith(response.value.value, StlFence) ==>
        && GenerateStlContent(ai, description).value != []
        && GenerateStlContent(ai, description).value[0] == 'l'
  {
    var response := ai.generateContent(StlRequest(description));
    if response.Resolved? && response.value.Some? {
      CleanStlIsTrimmedSlice(response.value.value);
      if StartsWith(response.value.value, StlFence) {
        CleanStlAsWrittenBeginsWithL(response.value.value);
      }
    }
  }

  /** The message V8 gives the TypeError of calling a method on undefined. */
  const UndefinedTextMessage := "Cannot read properties of undefined (reading 'startsWith')"

  // ---------------------------------------------------------------------------
  // Both assets

  const AssetsFailureMessage := "There was an issue generating the 3D model assets from the description."

  /** What `generate3dAssets` settles with. */
  function Assets3d(ai: Ai, description: string): Settled<GeneratedAssets> {
    var images := RenderedImages(ai, description);
    var stl := GenerateStlContent(ai, description);
    if images.Resolved? && stl.Resolved? then Resolved(GeneratedAssets(images.value, stl.value))
    else Rejected(Error(AssetsFailureMessage))
  }

  /** The assets exist exactly when both branches succeed; they then hold one
      image per viewpoint and the cleaned STL text, and any failure of either
      branch is reported by the one fixed message. */
  lemma Assets3dAllOrNothing(ai: Ai, description: string)
    ensures var r := Assets3d(ai, description);
      r.Resolved? <==> RenderedImages(ai, description).Resolved? && GenerateStlContent(ai, description).Resolved?
    ensures var r := Assets3d(ai, description);
      r.Resolved? ==> r.value.images == RenderedImages(ai, description).value &&
                      r.value.stlContent == GenerateStlContent(ai, description).value &&
                      |r.value.images| == |Viewpoints|
    ensures var r := Assets3d(ai, description);
      r.Rejected? ==> r.reason == Error(AssetsFailureMessage)
  {
    AllOrNothing(ai, description, RenderedImages(ai, description));
  }

  /** `generate3dAssets`: runs both branches and assembles their results, or
      replaces whatever either threw by one fixed error. */
  method Generate3dAssets(ai: Ai, description: string) returns (r: Settled<GeneratedAssets>)
    ensures r == Assets3d(ai, description)
  {
    var images;
    ghost var batches;
    images, batches := GenerateRenderedImages(ai, description);
    var stlContent := GenerateStlContent(ai, description);
    if images.Resolved? && stlContent.Resolved? {
      r := Resolved(GeneratedAssets(images.value, stlContent.value));
    } else {
      r := Rejected(Error(AssetsFailureMessage));
    }
  }
}
