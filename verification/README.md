# NanoCanvas image generation adapter and session controller, in Dafny

NanoCanvas is a browser front end. The user types a prompt, may attach a source image, and gets a generated or edited image back from the `gemini-2.5-flash-image` model. This project models the two parts of it that hold logic:

- `GeminiService` (`gemini_service.dfy`) models `services/geminiService.ts`. It builds the request. With a source image the request is an inline-data part holding the image's base64 payload, then the prompt as a text part; without one it is the prompt alone. It then reads the reply: it takes the first candidate only, scans that candidate's parts in order, and keeps the first part that carries inline data. That part becomes a `data:<mime>;base64,<data>` locator, with `image/png` as the default mime type. When no such part exists, the adapter raises a single error. The prefix strip of `fileToBase64` (`split(',')[1]`) is modelled as `StripDataUrlPrefix`.
  - The remote call is a parameter of type `Request -> CallOutcome`: it answers or it throws.
  - Reading the source file is the `dataUrl` field of `File`: the data URL that the browser's reader produces, or `None` when the reader reports an error. That error event carries no message, so the model gives it the empty message `ReadErrorMessage`.
  - `GenerateOrEditImage` is the imperative code: it pushes parts and loops over the reply with a `break`. It is proved equal to the specification function `Generation`, and the lemmas state first-match, first-candidate-only, the default mime type, the single error and the round trip of the prefix strip.
- `App` (`app.dfy`) models the React component in `App.tsx` as a class `Session`.
  - The class holds the six state variables: `prompt`, `sourceImage`, `sourceImagePreview`, `generatedImage`, `appState` and `errorMsg`.
  - Each event handler is one method. Each method's postcondition states the whole new state as an update of the old one, so "nothing else changes" is part of every contract.
  - `handleGenerate` awaits the adapter, so it is two methods. `ClickGenerate` covers the click up to the call, including the button that is disabled while processing. `CompleteGeneration` covers what happens once the call settles.
  - A ghost counter `pending` counts the adapter calls that have not settled yet. The object invariant `Valid()` says `pending <= 1`, and that `pending == 1` holds exactly while the state is `Processing`. Every method preserves it, so at most one call is ever in flight.
  - Because the preview reader's `onload` is its own event (`HandlePreviewLoaded`), the model allows a late `onload` after `ClearSourceImage`. The code allows that ordering too.
- `Wrappers` holds `Option` and `Result`. `Result.Err` carries a thrown value's message, empty when it has none.
- `Types` holds `AppState`.

Behaviour worth noting:
- One identical error is raised for "no candidates", "no content or parts" and "no inline-data part" (`services/geminiService.ts:57-77`). There are no separate error kinds.
- A failure to read the source file inside the adapter is re-thrown (`services/geminiService.ts:18, 81-84`). The rejection value is the reader's error event, which has no `message`, so the session moves to `Error` and shows the default text (`App.tsx:59-62`).
- A blank prompt leaves `appState` as it was, whatever that state is (`App.tsx:47-50`).
- A rejected file type sets `errorMsg` and keeps the current source (`App.tsx:21-24`).

## Model

| member | source | states |
|---|---|---|
| `GeminiService.StripDataUrlPrefix` | services/geminiService.ts:15 | `split(',')[1]` is absent exactly when the string has no comma; when present it holds no comma |
| `GeminiService.StripDataUrlPrefixSplits` | services/geminiService.ts:15 | for any `head + "," + field + tail`, where `head` and `field` have no comma and `tail` is empty or starts with a comma, the strip yields exactly `field` |
| `GeminiService.StripDataUrlPrefixInvertsDataUrl` | services/geminiService.ts:62-64 | round trip: stripping the prefix (line 15) of a locator built from a comma-free mime type and payload gives back the payload |
| `GeminiService.FileToBase64` | services/geminiService.ts:8-19 | a failed read gives the error with the empty message, because the reader's error event has none; otherwise the payload is the stripped data URL |
| `GeminiService.DataUrl` | services/geminiService.ts:64 | the locator is 13 characters longer than its mime type and payload together, so it is never empty |
| `GeminiService.ImageLocator` | services/geminiService.ts:62-64 | the locator of a returned image is a `data:` URL that ends in the image's payload |
| `GeminiService.ImageLocatorRoundTrip` | services/geminiService.ts:62-64 | stripping the prefix of a returned image's locator gives back its payload, when the payload and mime type hold no comma |
| `GeminiService.MimeTypeOrDefault` | services/geminiService.ts:62 | the returned image's own mime type is kept when it is present and non-empty; the result is never empty |
| `GeminiService.MissingMimeTypeDefaultsToPng` | services/geminiService.ts:62-64 | an absent or empty mime type gives the locator `data:image/png;base64,<data>` |
| `GeminiService.RequestFor` | services/geminiService.ts:30-44 | the request names the model; it has two parts with a source image and one without; the last part is the prompt, unchanged and untrimmed; every earlier part is inline data; a failed file read, and nothing else, gives the error with the empty message instead |
| `GeminiService.RequestShape` | services/geminiService.ts:30-44 | generation mode sends exactly `[text(prompt)]`; edit mode sends exactly `[inlineData(stripped payload, file type), text(prompt)]` |
| `GeminiService.FirstCandidateParts` | services/geminiService.ts:57-59 | a part list that is present in the first candidate's content is exactly what is scanned, and nothing else ever is; a missing candidate, content or part list leaves nothing to scan |
| `GeminiService.FirstInlineDataIndex` | services/geminiService.ts:60-65 | the index returned is the first part with inline data: no part before it has any, and it has some unless it is the end of the list |
| `GeminiService.FirstInlineData` | services/geminiService.ts:60-65 | no inline data is found exactly when no part carries any |
| `GeminiService.FirstMatchWins` | services/geminiService.ts:60-65 | the part chosen is the earliest with inline data, whatever follows it |
| `GeminiService.LeadingPartsSkipped` | services/geminiService.ts:60-70 | text-only or empty parts in front do not stop the scan or change its result |
| `GeminiService.LaterPartsIgnored` | services/geminiService.ts:65 | once an image part is found, parts appended after it cannot change the result |
| `GeminiService.OnlyFirstCandidateMatters` | services/geminiService.ts:57-58 | two replies whose first candidates are equal extract alike; later candidates never matter |
| `GeminiService.ExtractImage` | services/geminiService.ts:55-79 | every failure is the one no-image error; every success is a `data:` locator, never a text part |
| `GeminiService.NoImageCases` | services/geminiService.ts:57-77 | the no-image error occurs if and only if there is no candidate, the first has no content, its content has no parts, or none of its parts carries inline data |
| `GeminiService.ExtractImageValue` | services/geminiService.ts:57-79 | when part `i` of the first candidate is the first with inline data, the result is its locator: its mime type, or `image/png`, and its payload |
| `GeminiService.TextBeforeImageScenario` | services/geminiService.ts:60-70 | a refusal text followed by a PNG part `AAAA` yields `data:image/png;base64,AAAA` |
| `GeminiService.TextOnlyScenario` | services/geminiService.ts:66-77 | a reply whose only candidate holds a single text part yields the no-image error |
| `GeminiService.SinglePngReplyScenario` | services/geminiService.ts:30-79 | with no source image and a reply holding one PNG part `BBBB`, the adapter yields `data:image/png;base64,BBBB` |
| `GeminiService.Generation` | services/geminiService.ts:26-84 | a failed file read is re-thrown as the error with the empty message; any success is a `data:` locator |
| `GeminiService.CallOutcomeHandled` | services/geminiService.ts:46-84 | once the request is built, an error the remote call throws comes back with the same message, and an answer is decided by `ExtractImage` alone |
| `GeminiService.GenerateOrEditImage` | services/geminiService.ts:22-85 | the push-and-scan implementation (loop with `break`) equals `Generation`: read and call errors propagate as they are, with no retry or wrapping; otherwise the first candidate's first inline-data part gives the result |
| `App.IsImageType` | App.tsx:21 | a file is accepted exactly when its type starts with `image/` |
| `App.TrimStart` | App.tsx:47 | the leading white space of the string is removed, and only that: the result is a suffix, everything dropped is white space, and the result does not start with white space |
| `App.TrimEnd` | App.tsx:47 | the trailing white space is removed, and only that: the result is a prefix, everything dropped is white space, and the result does not end with white space |
| `App.Trim` | App.tsx:47 | the trimmed prompt is no longer than the prompt and neither starts nor ends with white space |
| `App.IsBlank` | App.tsx:47 | the test `!prompt.trim()`, written as a walk over the prompt; its meaning is stated by the next two rows |
| `App.IsBlankAllTrimmable` | App.tsx:47 | the blank-prompt test holds exactly when every character is ECMAScript white space or a line terminator |
| `App.TrimEmptyIffBlank` | App.tsx:47 | `prompt.trim()` is empty exactly when the prompt is blank, so the handler's test is `!prompt.trim()` |
| `App.Session.IsProcessing` | App.tsx:77 | `isProcessing` holds exactly when the state is `Processing`; the contracts of `ClickGenerate` and `ActionLabel` state what it decides |
| `App.Session.constructor` | App.tsx:7-12 | initial state: empty prompt, no source, no preview, no result, `Idle`, no error, no call pending |
| `App.Session.SetPrompt` | App.tsx:174 | only the prompt changes |
| `App.Session.HandleFileChange` | App.tsx:17-28 | no file: nothing changes; a non-image type only sets the upload error and keeps the source; an image becomes the source and clears the error; nothing else changes |
| `App.Session.HandlePreviewLoaded` | App.tsx:30-34 | only the preview changes, to the data URL read |
| `App.Session.ClearSourceImage` | App.tsx:38-44 | the source and its preview become null; the prompt, result, state and error keep their values |
| `App.Session.ClickGenerate` | App.tsx:46-53 | while processing (button disabled, lines 77 and 189) nothing happens; with a blank prompt only the validation message is set and no call is made; otherwise the state becomes `Processing`, the error is cleared, and exactly one call `(prompt, sourceImage)` is made, so it is the only call pending |
| `App.Session.CompleteGeneration` | App.tsx:55-62 | success stores the URL and sets `Success`; failure sets `Error` and the message, or the default text when the message is empty, and keeps any earlier result; no call is pending afterwards |
| `App.Session.DownloadLink` | App.tsx:65-74 | a download is offered exactly when there is a non-empty result, and its link is that result |
| `App.Session.ActionLabel` | App.tsx:196-206 | the label is "Processing..." exactly while processing; otherwise "Edit Image" exactly when there is a source image, and "Generate Image" exactly when there is none |
| `App.GenerateFromTextScenario` | App.tsx:46-74 | a text prompt whose call answers with one PNG part ends in `Success` with that image shown and offered for download; a second click while processing makes no call |
| `App.BlankPromptScenario` | App.tsx:46-50 | a prompt of blanks makes no call and only sets the validation message |

## Left out

- Building the SDK client and the network call (`services/geminiService.ts:1-5, 46-51`): the call is a function parameter from the request to its outcome.
- `FileReader` and the base64 encoding of file bytes (`services/geminiService.ts:9-12, 18`; `App.tsx:30-34`): browser I/O. The data URL a read yields, or its error, is an input.
- `console.log` and `console.error` (`services/geminiService.ts:67, 82`): logging only.
- JSX rendering, styling, icons, `useRef` and the reset of the file input (`App.tsx:41-43, 79-268`): presentation. The submit gate and the button label are kept.
- The DOM link, `Date.now()` and `click()` in `handleDownload` (`App.tsx:67-72`): browser effects and a clock. The model returns the link target that would be offered.
- async/await: each awaited step is a separate event, and the adapter outcome is passed to `CompleteGeneration`. The model does not follow call identities, so it does not connect a particular call to its completion.
- GenerationConfig and GeneratedImage in `types.ts`: the modelled code does not use them.
- GeminiService.Blob: a reply part whose inline data lacks `data` would put the text `undefined` into the locator. The model treats the payload as always present.
- App.Session.CompleteGeneration: a thrown value that is not an `Error` object has no `message`. The model represents that as an empty message, which selects the default text, as the code does.
- JavaScript strings are UTF-16 code units; the model's strings are sequences of Unicode scalar values. Every character `trim` removes lies in the Basic Multilingual Plane, so trimming is unaffected.
