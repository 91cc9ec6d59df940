/**
 * The request/response adapter of services/geminiService.ts.
 *
 * `generateOrEditImage` packs an optional source image and the prompt into an
 * ordered list of request parts, sends them to the remote model, and turns the
 * first image part of the first candidate of the reply into a `data:` URL.
 * The remote call is a parameter of type `Request -> CallOutcome`; reading the
 * source file is the `dataUrl` field of `File` (what `FileReader.readAsDataURL`
 * yields for it, or `None` when the reader reports an error).
 */
module GeminiService {
  import opened Wrappers

  /** The model identifier sent with every request. */
  const ModelName := "gemini-2.5-flash-image"

  /** The mime type a returned image is given when its own is absent or empty. */
  const DefaultMimeType := "image/png"

  /** The one error raised when the reply holds no image, whatever the reason. */
  const NoImageMessage := "The model did not return an image. It might have refused the prompt."

  /**
   * The message of a failed read: the promise is rejected with the reader's
   * error event, which has no `message`, so the message reads as empty.
   */
  const ReadErrorMessage := ""

  /** A file picked by the user: its declared type and the data URL reading it yields, `None` if the read fails. */
  datatype File = File(mimeType: string, dataUrl: Option<string>)

  /** A part of the request: inline image data (`undefined` data is `None`) or text. */
  datatype RequestPart = InlinePart(data: Option<string>, mimeType: string) | TextPart(text: string)

  datatype Request = Request(model: string, parts: seq<RequestPart>)

  /** Inline data of a reply part; its mime type is optional. */
  datatype Blob = Blob(mimeType: Option<string>, data: string)

  /** A part of a reply: it may carry inline data, text, both or neither. */
  datatype ResponsePart = ResponsePart(inlineData: Option<Blob>, text: Option<string>)

  datatype Content = Content(parts: Option<seq<ResponsePart>>)

  datatype Candidate = Candidate(content: Option<Content>)

  datatype Response = Response(candidates: Option<seq<Candidate>>)

  /** What the remote call does: it answers, or it throws an error with a message. */
  datatype CallOutcome = Answered(response: Response) | Threw(message: string)

  // ---------------------------------------------------------------------------
  // Data URLs and the prefix strip of `fileToBase64`
  // ---------------------------------------------------------------------------

  /** The position of the first comma of `s`, if any. */
  function CommaIndex(s: string): (k: Option<nat>)
    ensures k.None? <==> ',' !in s
    ensures k.Some? ==> k.value < |s| && s[k.value] == ',' && ',' !in s[..k.value]
  {
    if s == [] then None
    else if s[0] == ',' then Some(0)
    else
      match CommaIndex(s[1..])
      case None => None
      case Some(j) =>
        assert s[..j + 1] == [s[0]] + s[1..][..j];
        Some(j + 1)
  }

  /**
   * `s.split(',')[1]`: the text between the first comma and the next comma (or
   * the end of `s`); `undefined`, here `None`, when `s` has no comma.
   */
  function StripDataUrlPrefix(s: string): (r: Option<string>)
    ensures r.None? <==> ',' !in s
    ensures r.Some? ==> ',' !in r.value
  {
    match CommaIndex(s)
    case None => None
    case Some(k) =>
      var rest := s[k + 1..];
      match CommaIndex(rest)
      case None => Some(rest)
      case Some(j) => Some(rest[..j])
  }

  /** The base64 payload sent for a source file: the message-less read error, or the stripped data URL. */
  function FileToBase64(file: File): (r: Result<Option<string>>)
    ensures r.Err? <==> file.dataUrl.None?
    ensures r.Err? ==> r.message == ReadErrorMessage
    ensures r.Ok? ==> r.value == StripDataUrlPrefix(file.dataUrl.value)
  {
    match file.dataUrl
    case None => Err(ReadErrorMessage)
    case Some(url) => Ok(StripDataUrlPrefix(url))
  }

  /** The displayable locator `data:<mime>;base64,<data>`. */
  function DataUrl(mimeType: string, data: string): (url: string)
    ensures |url| == |mimeType| + |data| + 13
  {
    "data:" + mimeType + ";base64," + data
  }

  /** The mime type of a returned image, defaulting when it is absent or empty. */
  function MimeTypeOrDefault(mimeType: Option<string>): (m: string)
    ensures m != ""
    ensures mimeType.Some? && mimeType.value != "" ==> m == mimeType.value
  {
    if mimeType.Some? && mimeType.value != "" then mimeType.value else DefaultMimeType
  }

  /** The locator built for a returned image part: a `data:` URL ending in the payload. */
  function ImageLocator(blob: Blob): (locator: string)
    ensures "data:" <= locator
    ensures |blob.data| <= |locator| && locator[|locator| - |blob.data|..] == blob.data
  {
    DataUrl(MimeTypeOrDefault(blob.mimeType), blob.data)
  }

  /** If `k` is a comma with no comma before it, it is the first comma. */
  lemma CommaIndexAt(s: string, k: nat)
    requires k < |s| && s[k] == ',' && ',' !in s[..k]
    ensures CommaIndex(s) == Some(k)
  {
  }

  /**
   * The strip keeps exactly the field after the first comma: splitting
   * `head + "," + field + tail`, where neither `head` nor `field` has a comma and
   * `tail` is empty or starts a new field, yields `field`.
   */
  lemma StripDataUrlPrefixSplits(head: string, field: string, tail: string)
    requires ',' !in head && ',' !in field
    requires tail == [] || tail[0] == ','
    ensures StripDataUrlPrefix(head + "," + field + tail) == Some(field)
  {
    var s := head + "," + field + tail;
    assert s[..|head|] == head;
    CommaIndexAt(s, |head|);
    var rest := s[|head| + 1..];
    assert rest == field + tail;
    if tail == [] {
      assert rest == field;
    } else {
      assert rest[..|field|] == field;
      CommaIndexAt(rest, |field|);
    }
  }

  /**
   * Round trip: stripping the prefix of a locator built from a comma-free mime
   * type and payload gives back the payload.
   */
  lemma StripDataUrlPrefixInvertsDataUrl(mimeType: string, data: string)
    requires ',' !in mimeType && ',' !in data
    ensures StripDataUrlPrefix(DataUrl(mimeType, data)) == Some(data)
  {
    var head := "data:" + mimeType + ";base64";
    assert ',' !in "data:" && ',' !in ";base64";
    assert forall c :: c in head ==> c in "data:" || c in mimeType || c in ";base64";
    assert DataUrl(mimeType, data) == head + "," + data + "";
    StripDataUrlPrefixSplits(head, data, "");
  }

  /** The payload of a returned image is what the prefix strip recovers from its locator. */
  lemma ImageLocatorRoundTrip(blob: Blob)
    requires ',' !in blob.data && ',' !in MimeTypeOrDefault(blob.mimeType)
    ensures StripDataUrlPrefix(ImageLocator(blob)) == Some(blob.data)
  {
    StripDataUrlPrefixInvertsDataUrl(MimeTypeOrDefault(blob.mimeType), blob.data);
  }

  /** A locator for an image without a usable mime type says `image/png`. */
  lemma MissingMimeTypeDefaultsToPng(blob: Blob)
    requires blob.mimeType == None || blob.mimeType == Some("")
    ensures ImageLocator(blob) == "data:image/png;base64," + blob.data
  {
  }

  // ---------------------------------------------------------------------------
  // The request
  // ---------------------------------------------------------------------------

  /**
   * The request `generateOrEditImage` sends, or the error reading the source
   * file raised: an inline-data part for the file, if there is one, then the
   * prompt as a text part.
   */
  function RequestFor(prompt: string, sourceImageFile: Option<File>): (r: Result<Request>)
    ensures r.Err? <==> sourceImageFile.Some? && sourceImageFile.value.dataUrl.None?
    ensures r.Err? ==> r.message == ReadErrorMessage
    ensures r.Ok? ==> r.value.model == ModelName
    ensures r.Ok? ==> |r.value.parts| == (if sourceImageFile.Some? then 2 else 1)
    ensures r.Ok? ==> r.value.parts[|r.value.parts| - 1] == TextPart(prompt)
    ensures r.Ok? ==> forall j :: 0 <= j < |r.value.parts| - 1 ==> r.value.parts[j].InlinePart?
  {
    if sourceImageFile.None? then Ok(Request(ModelName, [TextPart(prompt)]))
    else
      match FileToBase64(sourceImageFile.value)
      case Err(m) => Err(m)
      case Ok(data) => Ok(Request(ModelName, [InlinePart(data, sourceImageFile.value.mimeType), TextPart(prompt)]))
  }

  /**
   * Generation mode sends the prompt alone; edit mode sends the file's stripped
   * payload with its declared type, then the prompt, unchanged.
   */
  lemma RequestShape(prompt: string, sourceImageFile: Option<File>)
    ensures sourceImageFile.None? ==> RequestFor(prompt, sourceImageFile) == Ok(Request(ModelName, [TextPart(prompt)]))
    ensures sourceImageFile.Some? && sourceImageFile.value.dataUrl.Some? ==>
      var file := sourceImageFile.value;
      RequestFor(prompt, sourceImageFile) ==
        Ok(Request(ModelName, [InlinePart(StripDataUrlPrefix(file.dataUrl.value), file.mimeType), TextPart(prompt)]))
  {
  }

  // ---------------------------------------------------------------------------
  // The response
  // ---------------------------------------------------------------------------

  /** The parts of the first candidate; a missing candidate, content or part list gives none. */
  function FirstCandidateParts(response: Response): (parts: seq<ResponsePart>)
    ensures parts != [] ==>
      response.candidates.Some? && |response.candidates.value| > 0 &&
      response.candidates.value[0].content.Some? &&
      response.candidates.value[0].content.value.parts == Some(parts)
    ensures (response.candidates.Some? && |response.candidates.value| > 0 &&
             response.candidates.value[0].content.Some? &&
             response.candidates.value[0].content.value.parts.Some?) ==>
      parts == response.candidates.value[0].content.value.parts.value
  {
    if response.candidates.None? || |response.candidates.value| == 0 then []
    else
      var content := response.candidates.value[0].content;
      if content.None? || content.value.parts.None? then [] else content.value.parts.value
  }

  /** The index of the first part carrying inline data, or `|parts|` when none does. */
  function FirstInlineDataIndex(parts: seq<ResponsePart>): (i: nat)
    ensures i <= |parts|
    ensures forall j :: 0 <= j < i ==> parts[j].inlineData.None?
    ensures i < |parts| ==> parts[i].inlineData.Some?
  {
    if parts == [] then 0
    else if parts[0].inlineData.Some? then 0
    else 1 + FirstInlineDataIndex(parts[1..])
  }

  /** The inline data of the first part that has any. */
  function FirstInlineData(parts: seq<ResponsePart>): (r: Option<Blob>)
    ensures r.None? <==> forall j :: 0 <= j < |parts| ==> parts[j].inlineData.None?
  {
    var i := FirstInlineDataIndex(parts);
    if i < |parts| then parts[i].inlineData else None
  }

  /**
   * What `generateOrEditImage` makes of a reply: the locator of the first
   * image part of the first candidate, or the single no-image error.
   */
  function ExtractImage(response: Response): (r: Result<string>)
    ensures r.Err? ==> r.message == NoImageMessage
    ensures r.Ok? ==> "data:" <= r.value
  {
    match FirstInlineData(FirstCandidateParts(response))
    case None => Err(NoImageMessage)
    case Some(blob) => Ok(ImageLocator(blob))
  }

  /**
   * The whole adapter as a function of the prompt, the file and the remote
   * call: a read error or a thrown call error comes back as it is, otherwise
   * the reply is extracted.
   */
  function Generation(prompt: string, sourceImageFile: Option<File>, generateContent: Request -> CallOutcome): (r: Result<string>)
    ensures sourceImageFile.Some? && sourceImageFile.value.dataUrl.None? ==> r == Err(ReadErrorMessage)
    ensures r.Ok? ==> "data:" <= r.value
  {
    match RequestFor(prompt, sourceImageFile)
    case Err(m) => Err(m)
    case Ok(request) =>
      match generateContent(request)
      case Threw(m) => Err(m)
      case Answered(response) => ExtractImage(response)
  }

  /** The first index is the only one with inline data and none before it. */
  lemma FirstInlineDataIndexUnique(parts: seq<ResponsePart>, i: nat)
    requires i <= |parts|
    requires forall j :: 0 <= j < i ==> parts[j].inlineData.None?
    requires i < |parts| ==> parts[i].inlineData.Some?
    ensures FirstInlineDataIndex(parts) == i
  {
  }

  /** First match wins: the earliest part with inline data is the one chosen, whatever follows it. */
  lemma FirstMatchWins(parts: seq<ResponsePart>, i: nat)
    requires i < |parts| && parts[i].inlineData.Some?
    requires forall j :: 0 <= j < i ==> parts[j].inlineData.None?
    ensures FirstInlineData(parts) == parts[i].inlineData
  {
    FirstInlineDataIndexUnique(parts, i);
  }

  /** Parts without inline data (text or empty) before the image do not stop the scan. */
  lemma LeadingPartsSkipped(prefix: seq<ResponsePart>, parts: seq<ResponsePart>)
    requires forall j :: 0 <= j < |prefix| ==> prefix[j].inlineData.None?
    ensures FirstInlineData(prefix + parts) == FirstInlineData(parts)
  {
    var s := prefix + parts;
    var k := FirstInlineDataIndex(parts);
    forall j | 0 <= j < |prefix| + k
      ensures s[j].inlineData.None?
    {
      if j >= |prefix| {
        assert s[j] == parts[j - |prefix|];
      }
    }
    if k < |parts| {
      assert s[|prefix| + k] == parts[k];
    }
    FirstInlineDataIndexUnique(s, |prefix| + k);
  }

  /** Parts after the first image are never looked at. */
  lemma LaterPartsIgnored(parts: seq<ResponsePart>, more: seq<ResponsePart>)
    requires FirstInlineData(parts).Some?
    ensures FirstInlineData(parts + more) == FirstInlineData(parts)
  {
    var k := FirstInlineDataIndex(parts);
    var s := parts + more;
    assert forall j :: 0 <= j <= k ==> s[j] == parts[j];
    FirstMatchWins(s, k);
  }

  /** Only the first candidate is consulted: replies that agree on it extract alike. */
  lemma OnlyFirstCandidateMatters(a: Response, b: Response)
    requires a.candidates.Some? && |a.candidates.value| > 0
    requires b.candidates.Some? && |b.candidates.value| > 0
    requires a.candidates.value[0] == b.candidates.value[0]
    ensures ExtractImage(a) == ExtractImage(b)
  {
  }

  /**
   * The no-image error is raised exactly when there is no candidate, the first
   * one has no content or no parts, or none of its parts carries inline data.
   */
  lemma NoImageCases(response: Response)
    ensures ExtractImage(response) == Err(NoImageMessage) <==>
      response.candidates.None? || |response.candidates.value| == 0 ||
      response.candidates.value[0].content.None? ||
      response.candidates.value[0].content.value.parts.None? ||
      forall j :: 0 <= j < |response.candidates.value[0].content.value.parts.value| ==>
        response.candidates.value[0].content.value.parts.value[j].inlineData.None?
  {
    var parts := FirstCandidateParts(response);
    if forall j :: 0 <= j < |parts| ==> parts[j].inlineData.None? {
      FirstInlineDataIndexUnique(parts, |parts|);
    }
  }

  /**
   * A success is the locator of the first part of the first candidate that
   * carries inline data: its mime type (or `image/png`) and its payload.
   */
  lemma ExtractImageValue(response: Response, i: nat)
    requires i < |FirstCandidateParts(response)|
    requires FirstCandidateParts(response)[i].inlineData.Some?
    requires forall j :: 0 <= j < i ==> FirstCandidateParts(response)[j].inlineData.None?
    ensures var blob := FirstCandidateParts(response)[i].inlineData.value;
      ExtractImage(response) == Ok(DataUrl(MimeTypeOrDefault(blob.mimeType), blob.data))
  {
    FirstMatchWins(FirstCandidateParts(response), i);
  }

  /**
   * What the remote call does decides the rest: an error it throws comes back
   * unchanged, with no retry and no wrapping, and an answer is extracted.
   */
  lemma CallOutcomeHandled(prompt: string, sourceImageFile: Option<File>, generateContent: Request -> CallOutcome)
    requires RequestFor(prompt, sourceImageFile).Ok?
    ensures var outcome := generateContent(RequestFor(prompt, sourceImageFile).value);
      outcome.Threw? ==> Generation(prompt, sourceImageFile, generateContent) == Err(outcome.message)
    ensures var outcome := generateContent(RequestFor(prompt, sourceImageFile).value);
      outcome.Answered? ==> Generation(prompt, sourceImageFile, generateContent) == ExtractImage(outcome.response)
  {
  }

  /** The reply may explain a refusal in text before the image; the image is still taken. */
  lemma TextBeforeImageScenario()
    ensures ExtractImage(Response(Some([Candidate(Some(Content(Some([
      ResponsePart(None, Some("I can't help")),
      ResponsePart(Some(Blob(Some("image/png"), "AAAA")), None)]))))])))
      == Ok("data:image/png;base64,AAAA")
  {
    var parts := [ResponsePart(None, Some("I can't help")), ResponsePart(Some(Blob(Some("image/png"), "AAAA")), None)];
    FirstMatchWins(parts, 1);
    assert ImageLocator(Blob(Some("image/png"), "AAAA")) == "data:image/png;base64,AAAA";
  }

  /** A reply whose only candidate holds text alone raises the no-image error. */
  lemma TextOnlyScenario(text: string)
    ensures ExtractImage(Response(Some([Candidate(Some(Content(Some([ResponsePart(None, Some(text))]))))])))
      == Err(NoImageMessage)
  {
  }

  /** Generation mode with a remote call that answers with one PNG part `BBBB`. */
  lemma SinglePngReplyScenario(prompt: string, reply: Response)
    requires reply == Response(Some([Candidate(Some(Content(Some([ResponsePart(Some(Blob(Some("image/png"), "BBBB")), None)]))))]))
    ensures Generation(prompt, None, _ => Answered(reply)) == Ok("data:image/png;base64,BBBB")
  {
    FirstMatchWins(FirstCandidateParts(reply), 0);
    assert ImageLocator(Blob(Some("image/png"), "BBBB")) == "data:image/png;base64,BBBB";
  }

  // ---------------------------------------------------------------------------
  // generateOrEditImage
  // ---------------------------------------------------------------------------

  /**
   * Builds the request by pushing parts, calls the model, and scans the first
   * candidate's parts in order until one carries inline data.
   */
  method GenerateOrEditImage(prompt: string, sourceImageFile: Option<File>, generateContent: Request -> CallOutcome)
    returns (r: Result<string>)
    ensures r == Generation(prompt, sourceImageFile, generateContent)
  {
    var parts: seq<RequestPart> := [];
    if sourceImageFile.Some? {
      var base64Data := FileToBase64(sourceImageFile.value);
      if base64Data.Err? {
        return Err(base64Data.message);
      }
      parts := parts + [InlinePart(base64Data.value, sourceImageFile.value.mimeType)];
    }
    parts := parts + [TextPart(prompt)];
    assert parts == RequestFor(prompt, sourceImageFile).value.parts;

    var outcome := generateContent(Request(ModelName, parts));
    if outcome.Threw? {
      return Err(outcome.message);
    }
    var response := outcome.response;

    var imageUrl := "";
    if response.candidates.Some? && |response.candidates.value| > 0 {
      var content := response.candidates.value[0].content;
      if content.Some? && content.value.parts.Some? {
        var received := content.value.parts.value;
        var i := 0;
        while i < |received|
          invariant 0 <= i <= |received|
          invariant forall j :: 0 <= j < i ==> received[j].inlineData.None?
          invariant imageUrl == ""
        {
          if received[i].inlineData.Some? {
            var blob := received[i].inlineData.value;
            var mimeType := MimeTypeOrDefault(blob.mimeType);
            imageUrl := DataUrl(mimeType, blob.data);
            FirstMatchWins(received, i);
            break;
          }
          i := i + 1;
        }
        if imageUrl == "" {
          FirstInlineDataIndexUnique(received, |received|);
        }
      }
    }

    if imageUrl == "" {
      return Err(NoImageMessage);
    }
    return Ok(imageUrl);
  }
}
