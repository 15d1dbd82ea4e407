# AI Text → Video: generation lifecycle and gallery, in Dafny

This project models the state machine of the single React component in
`App.jsx`. The component is a form. The user types a prompt and picks one of
five styles, then submits. The prompt and style are POSTed to a video
generation endpoint, the returned video is shown, and results are kept in a
gallery, newest first.

The component's state is one immutable record
`State(prompt, style, loading, videoUrl, gallery)`, where the gallery is a
`seq<Item>` and `Item(id, prompt, style, url)` is one saved result. Each
handler is a pure function from state to state:

- `App.Generate` is the `generate` handler. It takes the endpoint's answer as
  an input `Outcome`: `Ok(url)` for a success response (the url is the object
  URL made for the video), `HttpError(body)` for a non-success response, and
  `NetworkError(message)` for a rejected promise. It takes the `Date.now()`
  reading as the parameter `now`. It returns a `Run`: the in-flight state,
  the request sent, the final state and the alert shown.
- `App.Reset`, `App.Save` and `App.RemoveFromGallery` are the Reset, Save to
  Gallery and Delete buttons.

Three modules follow the program's structure:

- `JsString` (`jsstring.dfy`) holds JavaScript's `trim`. It strips the
  WhiteSpace and LineTerminator characters of ECMA-262 (sections 12.2 and
  12.3).
- `Gallery` (`gallery.dfy`) holds the list operations: the bounded prepend,
  the unbounded prepend and the filter by id.
- `App` (`app.dfy`) holds the state record and the handlers.

Points of the code that the model keeps as they are written:

- Only a successful generation truncates the gallery to 20 items
  (App.jsx:47). Save to Gallery prepends without a bound (App.jsx:128), so a
  full gallery reaches 21 items (`App.SaveBreaksCapacity`). "At most 20
  items" therefore holds after every handler except Save.
- The filter at App.jsx:67 removes every item with the id, not only the
  first (`Gallery.Without`). Ids are `Date.now()` readings, and nothing
  makes them unique.
- A successful generation already adds its item to the gallery
  (App.jsx:46-47). A later Save to Gallery stores the same video a second
  time (`App.GenerateThenSaveStoresTwice`).
- The request body carries the prompt as typed, not trimmed (App.jsx:34).
  The trim only decides whether the prompt is blank (App.jsx:23).
- The stored gallery is read with an unguarded `JSON.parse` (App.jsx:15), so
  corrupt stored data makes the load throw.

## Model

| member | source | states |
|---|---|---|
| `JsString.TrimStart` | App.jsx:23 | leading white space removed: the result is a suffix of the input, it is empty or starts with a non-white-space character, and everything cut off is white space |
| `JsString.TrimEnd` | App.jsx:23 | trailing white space removed: the result is a prefix of the input, it is empty or ends with a non-white-space character, and everything cut off is white space |
| `JsString.Trim` | App.jsx:23 | `prompt.trim()` is empty exactly when every character of the prompt is ECMA-262 white space or a line terminator; otherwise it starts and ends with a non-white-space character |
| `JsString.StrippedFromParts` | App.jsx:23 | cutting a white-space prefix and then a white-space suffix leaves exactly the middle of the input, with only white space on either side |
| `JsString.TrimKeepsMiddle` | App.jsx:23 | `trim` keeps the part of the input between the white space it cuts from the front and from the back, character for character |
| `JsString.IsBlank` | App.jsx:23 | `!prompt.trim()` holds exactly when every character of the prompt is white space or a line terminator, including the empty prompt |
| `JsString.NotBlankAt` | App.jsx:23 | one character that is neither white space nor a line terminator makes the prompt non-blank |
| `JsString.TrimIdempotent` | App.jsx:23 | trimming an already trimmed prompt changes nothing |
| `Gallery.Take` | App.jsx:47 | `slice(0, n)` is the prefix of length min(n, length) |
| `Gallery.PushBounded` | App.jsx:46-47 | after a successful generation the gallery has 1 to 20 items, the new item first, followed by a prefix of the old gallery in the same order; its length is the old length + 1, capped at 20 |
| `Gallery.BoundedPushOnFullGallery` | App.jsx:47 | on a gallery of exactly 20 items the result still has 20 items, is the new item followed by old items 0 to 18, and no longer holds old item 19 unless it occurs elsewhere |
| `Gallery.Push` | App.jsx:128 | the save path's prepend: length grows by one, the new item is first and the tail is the whole old gallery |
| `Gallery.SaveExceedsCapacity` | App.jsx:128 | a save into a full gallery gives 21 items |
| `Gallery.CountId` | App.jsx:67 | the number of items carrying an id never exceeds the gallery's length |
| `Gallery.Without` | App.jsx:67 | the filter by id keeps an item exactly when it was in the gallery and its id differs, and shortens the gallery by the number of items with that id |
| `Gallery.AvoidingSubseqBound` | App.jsx:67 | no subsequence of the gallery that avoids the id is longer than the number of items whose id differs |
| `Gallery.WithoutIsLongestAvoidingSubseq` | App.jsx:67 | the filter's result is exactly the subsequence of items whose id differs, in the original order: it is a subsequence free of the id, and every other subsequence free of the id is shorter or equal to it |
| `Gallery.WithoutUnchangedIffAbsent` | App.jsx:67 | deleting leaves the gallery unchanged if and only if no item carries the id |
| `Gallery.WithoutIdempotent` | App.jsx:67 | deleting the same id twice has the effect of deleting it once |
| `Gallery.DeleteUndoesSave` | App.jsx:67-128 | deleting the id of a just-saved item restores the previous gallery, when no older item carries that id |
| `Gallery.DeleteUndoesBoundedPush` | App.jsx:47-67 | the same for a generation's bounded prepend, when the gallery had fewer than 20 items |
| `App.Initial` | App.jsx:6-10 | the component starts with an empty prompt, cinematic style, not loading, no video and an empty gallery |
| `App.InitialState` | App.jsx:6-26 | the initial state is within the 20-item bound and shows no Save button; a submit from it is refused because the prompt is empty |
| `App.ErrorMessage` | App.jsx:37-39 | the reported message is the response text when it is non-empty and 'Server error' when it is empty, so it is never empty for an HTTP failure; a rejection reports its own message |
| `App.Generate` | App.jsx:22-54 | a blank prompt issues no request, alerts, and leaves the state unchanged. Otherwise: the request carries prompt and style; the in-flight state is loading with no video; loading is false again on every outcome. Success makes the video current; the new gallery has the new item first, followed by a prefix of the old gallery, and its length is the old length + 1 capped at 20. Failure leaves no video, leaves the gallery unchanged, and reports the error message |
| `App.Reset` | App.jsx:114 | the prompt becomes empty and the video is dropped; style, loading flag and gallery are untouched |
| `App.Save` | App.jsx:123-128 | offered only while a video is current; prepends an item built from the current prompt, style and video, grows the gallery by exactly one, keeps the whole old gallery as its tail, and changes nothing else |
| `App.SaveOffered` | App.jsx:123 | the Save to Gallery button is rendered exactly when `videoUrl` is truthy: not null and not the empty string |
| `App.SaveOfferedAfterHandlers` | App.jsx:28-128 | Reset and a failed generation hide the Save button; after a successful generation it is shown exactly when the object URL is non-empty |
| `App.RemoveFromGallery` | App.jsx:66-69 | the new gallery is a subsequence of the old one, in the original order; it holds no item with the id and keeps every item whose id differs; it shrinks by the number of items with the id; nothing else changes |
| `App.CapacityKeptExceptBySave` | App.jsx:47-114 | generate, Reset and Delete keep a gallery of at most 20 items within 20 |
| `App.SaveBreaksCapacity` | App.jsx:128 | Save to Gallery on a full gallery leaves 21 items, and a later successful generation brings it back to 20 |
| `App.GenerateAfterResetIsRefused` | App.jsx:23-26 | right after Reset a submit issues no request and leaves the state as Reset left it |
| `App.CurrentVideoAfterGenerate` | App.jsx:28-44 | after generate a video is current exactly when the request succeeded, or, when no request was issued, when one was current before |
| `App.DeleteUndoesGenerate` | App.jsx:46-69 | deleting the id a successful generation just used restores the previous gallery, when the gallery had room and no older item carries that id |
| `App.GenerateThenSaveStoresTwice` | App.jsx:46-128 | after a successful generation followed by Save to Gallery, the gallery starts with two items for the same video, the saved one first and the generated one second |
| `App.SpacesOnlyPromptIsRefused` | App.jsx:23-26 | a prompt of three spaces issues no request and raises the blank-prompt alert |
| `App.HttpErrorBodyIsReported` | App.jsx:37-50 | a failure response with a non-empty body, such as a 500 with "model overloaded", reports exactly that body and leaves no current video |

## Left out

- `fetch`, `res.text()`, `res.blob()` and `URL.createObjectURL` (App.jsx:31-43) are network and browser calls. Their combined effect is the `Outcome` input. A failure while reading the body is a `NetworkError`, like any other rejection.
- `Date.now()` is a clock: the id is the parameter `now`. Ids are modelled as integers and nothing assumes they are unique.
- The `localStorage` load and persist effects (App.jsx:13-20) are browser storage plus JSON serialisation, with no logic of their own. `Initial` therefore starts from an empty gallery. A stored gallery that fails to parse makes the load throw, because nothing catches the error.
- React's closure and scheduling semantics are not modelled. `generate` uses the prompt, style and gallery captured when it was called (App.jsx:47), so two overlapping submits can overwrite each other's gallery update. Each handler is modelled as one atomic transition, with no interleavings.
- The text of the `alert` messages and `console.error` are not modelled. The model keeps only which notice is shown and the error message it carries.
- The download link (App.jsx:56-64), the clipboard copy (App.jsx:144), the theme toggle (App.jsx:71-75) and the JSX rendering are UI plumbing. The only part of the rendering that is modelled is the guard that shows the Save button (`App.SaveOffered`).
- The style is the five-value selector, modelled as a datatype. The component's state is a free string, but only the selector ever writes it.
