/** The application component (App.tsx): three pieces of state, the handler
    that reads the uploaded image, asks for a description and then for the
    assets, the handler that starts over, and the choice of what to show.

    The file reader and the service are parameters: an `ImageFile` says how
    reading it ends, an `Ai` how each service request settles. */
module App {
  import opened Types
  import opened JsString
  import opened GeminiService

  const ReadFailureMessage := "Failed to read file as base64 string."
  const NoDescriptionMessage := "Could not generate a description for the object."
  const UnknownErrorMessage := "An unknown error occurred."

  /** How `FileReader.readAsDataURL` ends: `onloadend` with a string result,
      `onloadend` with a result that is not a string, or `onerror` (whose
      argument is an event, not an `Error`). */
  datatype ReadOutcome = DataUrl(text: string) | NonStringResult | ReadError

  /** The uploaded file: its MIME `type` and how reading it ends. */
  datatype ImageFile = ImageFile(mimeType: string, read: ReadOutcome)

  // ---------------------------------------------------------------------------
  // The try block of handleGenerate

  /** `dataUrl.split(',')[1]`: the text between the first and the second
      comma, or undefined when there is no comma. */
  function Base64Payload(dataUrl: string): (payload: Option<string>)
    ensures payload.Some? <==> ',' in dataUrl
    ensures payload.Some? ==> ',' !in payload.value
  {
    var fields := Split(dataUrl, ',');
    if |fields| > 1 then Some(fields[1]) else None
  }

  /** A data URL assembled from comma-free pieces yields its second piece. */
  lemma Base64PayloadOfJoin(fields: seq<string>)
    requires |fields| >= 2
    requires forall k :: 0 <= k < |fields| ==> ',' !in fields[k]
    ensures Base64Payload(Join(fields, ',')) == Some(fields[1])
  {
    SplitJoin(fields, ',');
  }

  /** In particular `header,payload` yields `payload`. */
  lemma Base64PayloadOfDataUrl(header: string, payload: string)
    requires ',' !in header && ',' !in payload
    ensures Base64Payload(header + "," + payload) == Some(payload)
  {
    var fields := [header, payload];
    assert fields[1..] == [payload];
    assert Join(fields, ',') == header + "," + payload;
    Base64PayloadOfJoin(fields);
  }

  /** The promise around the file reader. */
  function ReadAsBase64(file: ImageFile): Settled<Option<string>> {
    match file.read
    case DataUrl(text) => Resolved(Base64Payload(text))
    case NonStringResult => Rejected(Error(ReadFailureMessage))
    case ReadError => Rejected(NonError)
  }

  /** `err instanceof Error ? err.message : 'An unknown error occurred.'` */
  function ErrorMessage(reason: Thrown): string {
    match reason
    case Error(message) => message
    case NonError => UnknownErrorMessage
  }

  /** A description JavaScript treats as true: defined and not empty. */
  predicate Truthy(description: Option<string>) {
    description.Some? && description.value != ""
  }

  /** How the try block of `handleGenerate` ends: with the assets, or with
      whatever was thrown on the way. */
  function Generation(ai: Ai, file: ImageFile, objectName: string): Settled<GeneratedAssets> {
    match ReadAsBase64(file)
    case Rejected(e) => Rejected(e)
    case Resolved(base64) =>
      match GetObjectDescription(ai, base64, file.mimeType, objectName)
      case Rejected(e) => Rejected(e)
      case Resolved(description) =>
        if !Truthy(description) then Rejected(Error(NoDescriptionMessage))
        else Assets3d(ai, description.value)
  }

  /** The description that a successful read leads to. */
  function Described(ai: Ai, file: ImageFile, objectName: string): Settled<Option<string>>
    requires file.read.DataUrl?
  {
    GetObjectDescription(ai, Base64Payload(file.read.text), file.mimeType, objectName)
  }

  /** The generation succeeds exactly when the file reads as a string, the
      description comes back non-empty and both asset branches succeed for
      it; the assets are then those of that description, one image per
      viewpoint. */
  lemma GenerationSucceeds(ai: Ai, file: ImageFile, objectName: string)
    ensures Generation(ai, file, objectName).Resolved? <==>
      && file.read.DataUrl?
      && Described(ai, file, objectName).Resolved?
      && Truthy(Described(ai, file, objectName).value)
      && Assets3d(ai, Described(ai, file, objectName).value.value).Resolved?
    ensures Generation(ai, file, objectName).Resolved? ==>
      && Generation(ai, file, objectName) == Assets3d(ai, Described(ai, file, objectName).value.value)
      && |Generation(ai, file, objectName).value.images| == |Viewpoints|
  {
    if file.read.DataUrl? && Described(ai, file, objectName).Resolved? && Truthy(Described(ai, file, objectName).value) {
      Assets3dAllOrNothing(ai, Described(ai, file, objectName).value.value);
    }
  }

  /** The errors the try block itself raises, and what reaches the catch when
      the asset service fails. */
  lemma GenerationFailures(ai: Ai, file: ImageFile, objectName: string)
    ensures file.read.NonStringResult? ==> Generation(ai, file, objectName) == Rejected(Error(ReadFailureMessage))
    ensures file.read.ReadError? ==> Generation(ai, file, objectName) == Rejected(NonError)
    ensures file.read.DataUrl? && Described(ai, file, objectName).Rejected? ==>
      Generation(ai, file, objectName) == Rejected(Described(ai, file, objectName).reason)
    ensures file.read.DataUrl? && Described(ai, file, objectName).Resolved? && !Truthy(Described(ai, file, objectName).value) ==>
      Generation(ai, file, objectName) == Rejected(Error(NoDescriptionMessage))
    ensures file.read.DataUrl? && Described(ai, file, objectName).Resolved? && Truthy(Described(ai, file, objectName).value) ==>
      (Generation(ai, file, objectName).Rejected? ==> Generation(ai, file, objectName) == Rejected(Error(AssetsFailureMessage)))
  {
    if file.read.DataUrl? && Described(ai, file, objectName).Resolved? && Truthy(Described(ai, file, objectName).value) {
      Assets3dAllOrNothing(ai, Described(ai, file, objectName).value.value);
    }
  }

  /** The service calls the handler makes, in order. */
  datatype ServiceCall = Describe(request: ContentRequest) | GenerateAssets(description: string)

  /** The calls of one `handleGenerate`: none when the file cannot be read,
      else the description request, followed by the asset generation only
      when a non-empty description came back. */
  function ServiceCalls(ai: Ai, file: ImageFile, objectName: string): seq<ServiceCall> {
    match ReadAsBase64(file)
    case Rejected(_) => []
    case Resolved(base64) =>
      var describe := Describe(DescriptionRequest(base64, file.mimeType, objectName));
      match GetObjectDescription(ai, base64, file.mimeType, objectName)
      case Resolved(description) =>
        if Truthy(description) then [describe, GenerateAssets(description.value)] else [describe]
      case Rejected(_) => [describe]
  }

  /** The asset generation is asked for only after the description request,
      only with a non-empty description, and never when the description is
      missing or empty. */
  lemma AssetsOnlyAfterDescription(ai: Ai, file: ImageFile, objectName: string)
    ensures var calls := ServiceCalls(ai, file, objectName);
      forall k :: 0 <= k < |calls| && calls[k].GenerateAssets? ==>
        && k == 1
        && calls[0] == Describe(DescriptionRequest(Base64Payload(file.read.text), file.mimeType, objectName))
        && calls[k].description != ""
        && Described(ai, file, objectName) == Resolved(Some(calls[k].description))
    ensures (exists k :: 0 <= k < |ServiceCalls(ai, file, objectName)| && ServiceCalls(ai, file, objectName)[k].GenerateAssets?) <==>
      file.read.DataUrl? && Described(ai, file, objectName).Resolved? && Truthy(Described(ai, file, objectName).value)
  {
    var calls := ServiceCalls(ai, file, objectName);
    if file.read.DataUrl? && Described(ai, file, objectName).Resolved? && Truthy(Described(ai, file, objectName).value) {
      assert calls[1].GenerateAssets?;
    }
  }

  // ---------------------------------------------------------------------------
  // State and view

  /** The three pieces of state together. */
  datatype Snapshot = Snapshot(appState: AppState, assets: Option<GeneratedAssets>, error: Option<string>)

  /** What every handler keeps: an error is only shown on the upload screen,
      and assets exist exactly on the result screen. */
  predicate Consistent(s: Snapshot) {
    && (s.error.Some? ==> s.appState == Idle)
    && (s.assets.Some? <==> s.appState == Result)
  }

  /** The state the handler leaves once the try block has ended: the result
      screen with the assets, or the upload screen with the message of what
      was thrown. */
  function Settle(outcome: Settled<GeneratedAssets>): (s: Snapshot)
    ensures Consistent(s)
    ensures outcome.Resolved? ==> s.assets == Some(outcome.value) && s.error == None
    ensures outcome.Rejected? ==> s.error == Some(ErrorMessage(outcome.reason)) && s.assets == None
  {
    match outcome
    case Resolved(assets) => Snapshot(Result, Some(assets), None)
    case Rejected(reason) => Snapshot(Idle, None, Some(ErrorMessage(reason)))
  }

  /** What `renderContent` puts on the page. */
  datatype View = Uploader(error: Option<string>) | Spinner | ResultScreen(assets: GeneratedAssets) | Nothing

  function RenderContent(s: Snapshot): View {
    match s.appState
    case Idle => Uploader(s.error)
    case Loading => Spinner
    case Result => if s.assets.Some? then ResultScreen(s.assets.value) else Nothing
  }

  /** A consistent state always shows something: the result screen exactly in
      state RESULT, with its assets, and an error only on the uploader. */
  lemma RenderConsistent(s: Snapshot)
    requires Consistent(s)
    ensures RenderContent(s) != Nothing
    ensures RenderContent(s).ResultScreen? <==> s.appState == Result
    ensures RenderContent(s).ResultScreen? ==> Some(RenderContent(s).assets) == s.assets
    ensures s.error.Some? ==> RenderContent(s) == Uploader(s.error)
  {
  }

  /** After a generation the page shows the assets, or the uploader with the
      message; it never stays on the spinner. */
  lemma SettledView(outcome: Settled<GeneratedAssets>)
    ensures outcome.Resolved? ==> RenderContent(Settle(outcome)) == ResultScreen(outcome.value)
    ensures outcome.Rejected? ==> RenderContent(Settle(outcome)) == Uploader(Some(ErrorMessage(outcome.reason)))
  {
  }

  // ---------------------------------------------------------------------------
  // The component

  /** The component's state hooks. `rendered` records the states React
      commits, one per batch of setter calls (the three setters before the
      first `await` form one batch, the two in the success or the catch
      branch another). */
  class AppComponent {
    var appState: AppState
    var generatedAssets: Option<GeneratedAssets>
    var error: Option<string>
    ghost var rendered: seq<Snapshot>

    function Current(): Snapshot
      reads this
    {
      Snapshot(appState, generatedAssets, error)
    }

    ghost predicate Valid()
      reads this
    {
      && Consistent(Current())
      && (forall k :: 0 <= k < |rendered| ==> Consistent(rendered[k]))
      && rendered != [] && rendered[|rendered| - 1] == Current()
    }

    /** The initial state: IDLE, no assets, no error. */
    constructor()
      ensures Valid()
      ensures Current() == Snapshot(Idle, None, None)
      ensures rendered == [Current()]
    {
      appState := Idle;
      generatedAssets := None;
      error := None;
      rendered := [Snapshot(Idle, None, None)];
    }

    /** `handleGenerate`: shows the spinner with error and assets cleared,
        runs the read, the description and the asset generation one after
        the other, and settles on the result or on the error message. */
    method HandleGenerate(ai: Ai, imageFile: ImageFile, objectName: string) returns (ghost calls: seq<ServiceCall>)
      requires Valid()
      modifies this
      ensures Valid()
      ensures Current() == Settle(Generation(ai, imageFile, objectName))
      ensures rendered == old(rendered) + [Snapshot(Loading, None, None), Current()]
      ensures calls == ServiceCalls(ai, imageFile, objectName)
    {
      appState := Loading;
      error := None;
      generatedAssets := None;
      rendered := rendered + [Current()];
      calls := [];

      var outcome: Settled<GeneratedAssets>;
      var read := ReadAsBase64(imageFile);
      if read.Rejected? {
        outcome := Rejected(read.reason);
      } else {
        var base64Image := read.value;
        var mimeType := imageFile.mimeType;
        calls := calls + [Describe(DescriptionRequest(base64Image, mimeType, objectName))];
        var description := GetObjectDescription(ai, base64Image, mimeType, objectName);
        if description.Rejected? {
          outcome := Rejected(description.reason);
        } else if !Truthy(description.value) {
          outcome := Rejected(Error(NoDescriptionMessage));
        } else {
          calls := calls + [GenerateAssets(description.value.value)];
          outcome := Generate3dAssets(ai, description.value.value);
        }
      }

      if outcome.Resolved? {
        generatedAssets := Some(outcome.value);
        appState := Result;
      } else {
        error := Some(ErrorMessage(outcome.reason));
        appState := Idle;
      }
      rendered := rendered + [Current()];
    }

    /** `handleReset`: back to the empty upload screen. */
    method HandleReset()
      requires Valid()
      modifies this
      ensures Valid()
      ensures Current() == Snapshot(Idle, None, None)
      ensures rendered == old(rendered) + [Current()]
    {
      appState := Idle;
      generatedAssets := None;
      error := None;
      rendered := rendered + [Current()];
    }
  }
}
