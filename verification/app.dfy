/**
 * The session controller of App.tsx: six pieces of state that the event
 * handlers update through their setters, the disabled-while-processing gate on
 * the submit button, and the label that button shows.
 *
 * `handleGenerate` awaits the adapter, so it is two events here: `ClickGenerate`
 * runs it up to the call and hands back the call it makes, and
 * `CompleteGeneration` runs the rest once the call has settled. Other events may
 * come in between, as they can in the browser.
 */
module App {
  import opened Wrappers
  import opened Types
  import opened GeminiService

  const InvalidFileMessage := "Please upload a valid image file (PNG, JPEG)."
  const EmptyPromptMessage := "Please enter a prompt describing what you want to generate or how to edit the image."
  const UnknownErrorMessage := "An unknown error occurred while communicating with Gemini."

  const EditLabel := "Edit Image"
  const GenerateLabel := "Generate Image"
  const ProcessingLabel := "Processing..."

  /** `type.startsWith('image/')`. */
  predicate IsImageType(mimeType: string)
  {
    "image/" <= mimeType
  }

  /** The characters `String.prototype.trim` removes: ECMAScript white space and line terminators. */
  predicate IsTrimmable(c: char)
  {
    c == '\t' || c == '\n' || c == '\U{B}' || c == '\U{C}' || c == '\r' || c == ' ' ||
    c == '\U{A0}' || c == '\U{1680}' || ('\U{2000}' <= c <= '\U{200A}') ||
    c == '\U{2028}' || c == '\U{2029}' || c == '\U{202F}' || c == '\U{205F}' ||
    c == '\U{3000}' || c == '\U{FEFF}'
  }

  /** `s` without its leading white space. */
  function TrimStart(s: string): (r: string)
    ensures |r| <= |s| && r == s[|s| - |r|..]
    ensures forall i :: 0 <= i < |s| - |r| ==> IsTrimmable(s[i])
    ensures r != [] ==> !IsTrimmable(r[0])
  {
    if s != [] && IsTrimmable(s[0]) then TrimStart(s[1..]) else s
  }

  /** `s` without its trailing white space. */
  function TrimEnd(s: string): (r: string)
    ensures |r| <= |s| && r == s[..|r|]
    ensures forall i :: |r| <= i < |s| ==> IsTrimmable(s[i])
    ensures r != [] ==> !IsTrimmable(r[|r| - 1])
  {
    if s != [] && IsTrimmable(s[|s| - 1]) then TrimEnd(s[..|s| - 1]) else s
  }

  /** `s.trim()`: what is left neither starts nor ends with white space. */
  function Trim(s: string): (r: string)
    ensures |r| <= |s|
    ensures r != [] ==> !IsTrimmable(r[0]) && !IsTrimmable(r[|r| - 1])
  {
    TrimEnd(TrimStart(s))
  }

  /** `!s.trim()`: every character of `s` is white space. */
  predicate IsBlank(s: string)
  {
    s == [] || (IsTrimmable(s[0]) && IsBlank(s[1..]))
  }

  /** `IsBlank` holds of exactly the strings made of white space alone. */
  lemma {:induction false} IsBlankAllTrimmable(s: string)
    ensures IsBlank(s) <==> forall i :: 0 <= i < |s| ==> IsTrimmable(s[i])
  {
    if s != [] {
      IsBlankAllTrimmable(s[1..]);
      assert forall i :: 1 <= i < |s| ==> s[i] == s[1..][i - 1];
    }
  }

  /** The prompt test is `trim`'s: a string trims to nothing exactly when it is blank. */
  lemma TrimEmptyIffBlank(s: string)
    ensures Trim(s) == "" <==> IsBlank(s)
  {
    IsBlankAllTrimmable(s);
    var t := TrimStart(s);
    if t != [] {
      // the first character `trim` keeps is not white space, in `s` and in `Trim(s)`
      assert t[0] == s[|s| - |t|];
      assert TrimEnd(t) != [] by {
        assert forall i :: |TrimEnd(t)| <= i < |t| ==> IsTrimmable(t[i]);
      }
    }
  }

  /** The six state variables of the component, as one value. */
  datatype View = View(
    prompt: string,
    sourceImage: Option<File>,
    sourceImagePreview: Option<string>,
    generatedImage: Option<string>,
    appState: AppState,
    errorMsg: Option<string>)

  /** The adapter call a submit makes: `generateOrEditImage(prompt, sourceImage)`. */
  datatype GenerationCall = GenerationCall(prompt: string, sourceImage: Option<File>)

  class Session {
    var prompt: string
    var sourceImage: Option<File>
    var sourceImagePreview: Option<string>
    var generatedImage: Option<string>
    var appState: AppState
    var errorMsg: Option<string>

    /** The number of adapter calls made and not yet settled. */
    ghost var pending: nat

    /** At most one call is outstanding, and one is exactly while the state is `Processing`. */
    ghost predicate Valid()
      reads this
    {
      pending <= 1 && (pending == 1 <==> appState == Processing)
    }

    function State(): View
      reads this
    {
      View(prompt, sourceImage, sourceImagePreview, generatedImage, appState, errorMsg)
    }

    /** `isProcessing`: the submit button is disabled. */
    predicate IsProcessing()
      reads this
    {
      appState == Processing
    }

    constructor ()
      ensures Valid() && pending == 0
      ensures State() == View("", None, None, None, Idle, None)
    {
      prompt := "";
      sourceImage := None;
      sourceImagePreview := None;
      generatedImage := None;
      appState := Idle;
      errorMsg := None;
      pending := 0;
    }

    /** The prompt text area's change handler. */
    method SetPrompt(text: string)
      requires Valid()
      modifies this
      ensures Valid() && pending == old(pending)
      ensures State() == old(State()).(prompt := text)
    {
      prompt := text;
    }

    /**
     * `handleFileChange`: no file changes nothing; a file whose type is not an
     * image only sets the error; an image becomes the source and clears the error.
     */
    method HandleFileChange(file: Option<File>)
      requires Valid()
      modifies this
      ensures Valid() && pending == old(pending)
      ensures file.None? ==> State() == old(State())
      ensures file.Some? && !IsImageType(file.value.mimeType) ==>
        State() == old(State()).(errorMsg := Some(InvalidFileMessage))
      ensures file.Some? && IsImageType(file.value.mimeType) ==>
        State() == old(State()).(sourceImage := file, errorMsg := None)
    {
      if file.Some? {
        if !IsImageType(file.value.mimeType) {
          errorMsg := Some(InvalidFileMessage);
          return;
        }
        sourceImage := file;
        errorMsg := None;
      }
    }

    /** The preview reader's `onload`: the data URL becomes the source preview. */
    method HandlePreviewLoaded(dataUrl: string)
      requires Valid()
      modifies this
      ensures Valid() && pending == old(pending)
      ensures State() == old(State()).(sourceImagePreview := Some(dataUrl))
    {
      sourceImagePreview := Some(dataUrl);
    }

    /** `clearSourceImage`: drops the source and its preview and nothing else. */
    method ClearSourceImage()
      requires Valid()
      modifies this
      ensures Valid() && pending == old(pending)
      ensures State() == old(State()).(sourceImage := None, sourceImagePreview := None)
    {
      sourceImage := None;
      sourceImagePreview := None;
    }

    /**
     * A click on the submit button, up to the adapter call. While processing the
     * button is disabled and nothing happens; a blank prompt only sets the
     * validation message; otherwise the state becomes `Processing`, the error is
     * cleared and the returned call is made.
     */
    method ClickGenerate() returns (call: Option<GenerationCall>)
      requires Valid()
      modifies this
      ensures Valid()
      ensures call.Some? <==> old(pending) == 0 && pending == 1
      ensures old(IsProcessing()) ==> call.None? && State() == old(State()) && pending == old(pending)
      ensures !old(IsProcessing()) && IsBlank(old(prompt)) ==>
        call.None? && pending == old(pending) &&
        State() == old(State()).(errorMsg := Some(EmptyPromptMessage))
      ensures !old(IsProcessing()) && !IsBlank(old(prompt)) ==>
        call == Some(GenerationCall(old(prompt), old(sourceImage))) &&
        State() == old(State()).(appState := Processing, errorMsg := None)
    {
      if IsProcessing() {
        return None;
      }
      if IsBlank(prompt) {
        errorMsg := Some(EmptyPromptMessage);
        return None;
      }
      appState := Processing;
      errorMsg := None;
      pending := pending + 1;
      return Some(GenerationCall(prompt, sourceImage));
    }

    /**
     * The rest of `handleGenerate` once the outstanding call settles: a result
     * is shown and the state becomes `Success`; an error becomes the message
     * (or the default one when its message is empty), the state becomes
     * `Error`, and any earlier result stays.
     */
    method CompleteGeneration(outcome: Result<string>)
      requires Valid() && pending == 1
      modifies this
      ensures Valid() && pending == 0
      ensures outcome.Ok? ==>
        State() == old(State()).(generatedImage := Some(outcome.value), appState := Success)
      ensures outcome.Err? ==>
        State() == old(State()).(
          appState := Error,
          errorMsg := Some(if outcome.message == "" then UnknownErrorMessage else outcome.message))
    {
      pending := 0;
      match outcome
      case Ok(resultImageUrl) =>
        generatedImage := Some(resultImageUrl);
        appState := Success;
      case Err(message) =>
        appState := Error;
        errorMsg := Some(if message == "" then UnknownErrorMessage else message);
    }

    /**
     * `handleDownload`: the link target offered, if any. Nothing is offered
     * while there is no result (an empty string counts as none, as it is falsy).
     */
    function DownloadLink(): (href: Option<string>)
      reads this
      ensures href.Some? <==> generatedImage.Some? && generatedImage.value != ""
      ensures href.Some? ==> href.value == generatedImage.value
    {
      if generatedImage.Some? && generatedImage.value != "" then Some(generatedImage.value) else None
    }

    /** The submit button's label. */
    function ActionLabel(): (caption: string)
      reads this
      ensures caption == ProcessingLabel <==> IsProcessing()
      ensures caption == EditLabel <==> !IsProcessing() && sourceImage.Some?
      ensures caption == GenerateLabel <==> !IsProcessing() && sourceImage.None?
    {
      if IsProcessing() then ProcessingLabel
      else if sourceImage.Some? then EditLabel
      else GenerateLabel
    }
  }

  /**
   * A client: generating from a text prompt with a remote call that answers
   * with one PNG part, with a second click while the call is outstanding.
   */
  method GenerateFromTextScenario() returns (again: Option<GenerationCall>, view: View, href: Option<string>)
    ensures again.None?
    ensures view == View("a red circle", None, None, Some("data:image/png;base64,BBBB"), Success, None)
    ensures href == Some("data:image/png;base64,BBBB")
  {
    var session := new Session();
    session.SetPrompt("a red circle");
    var call := session.ClickGenerate();
    assert call == Some(GenerationCall("a red circle", None));
    assert session.ActionLabel() == ProcessingLabel;

    again := session.ClickGenerate();
    assert session.pending == 1;

    var reply := Response(Some([Candidate(Some(Content(Some([ResponsePart(Some(Blob(Some("image/png"), "BBBB")), None)]))))]));
    SinglePngReplyScenario(call.value.prompt, reply);
    var outcome := GenerateOrEditImage(call.value.prompt, call.value.sourceImage, _ => Answered(reply));
    assert outcome == Ok("data:image/png;base64,BBBB");

    session.CompleteGeneration(outcome);
    view := session.State();
    href := session.DownloadLink();
  }

  /** A client: a prompt of blanks only sets the validation message. */
  method BlankPromptScenario() returns (call: Option<GenerationCall>, view: View)
    ensures call.None?
    ensures view == View(" \t ", None, None, None, Idle, Some(EmptyPromptMessage))
  {
    var session := new Session();
    session.SetPrompt(" \t ");
    call := session.ClickGenerate();
    view := session.State();
  }
}
