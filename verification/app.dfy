/**
  The App component's state and its handlers, each one an atomic transition
  from state to state: generate (App.jsx:22-54), Reset (App.jsx:114), Save to
  Gallery (App.jsx:128) and removeFromGallery (App.jsx:66-69).

  The HTTP exchange of generate is an input (`Outcome`), the object URL made
  for a downloaded video is part of that input, and the `Date.now()` reading
  that becomes an item's id is a parameter.
 */
module App {
  import opened Gallery
  import JsString

  datatype Option<T> = None | Some(value: T)

  /** The component's state hooks (App.jsx:6-10). The theme flag is left out;
      `videoUrl` is `null` (None) or an object URL. */
  datatype State = State(
    prompt: string,
    style: Style,
    loading: bool,
    videoUrl: Option<string>,
    gallery: seq<Item>)

  /** The state before any interaction: empty prompt, cinematic style, idle,
      no video, empty gallery (App.jsx:6-10). */
  function Initial(): (s: State)
    ensures s.prompt == "" && !s.loading && s.videoUrl == None
    ensures s.style == Cinematic && s.gallery == []
  {
    State("", Cinematic, false, None, [])
  }

  /** How the POST to the generation endpoint ends: a success response whose
      body became the object URL `url`; a non-success response with body text
      `body`; or a rejected promise (network failure, or a failure reading
      the body) carrying `message`. */
  datatype Outcome = Ok(url: string) | HttpError(body: string) | NetworkError(message: string)

  /** The JSON body of the request: the prompt as typed, untrimmed, and the
      style (App.jsx:34). */
  datatype Request = Request(prompt: string, style: Style)

  /** What the user is told by `alert`: the prompt was blank (App.jsx:24), or
      generation failed with a message (App.jsx:50). */
  datatype Notice = BlankPrompt | GenerationFailed(message: string)

  /** One run of generate: the state while the request is in flight (None
      when no request was issued), the request sent, the state once the
      handler has finished, and the alert shown, if any. */
  datatype Run = Run(busy: Option<State>, request: Option<Request>, final: State, notice: Option<Notice>)

  /** The message of the error caught at App.jsx:48: the response text, or
      'Server error' when that text is empty (App.jsx:38-39), or the message
      of the rejection. */
  function ErrorMessage(o: Outcome): (m: string)
    requires !o.Ok?
    ensures o.HttpError? ==> m != "" && (o.body != "" ==> m == o.body)
    ensures o.HttpError? && o.body == "" ==> m == "Server error"
    ensures o.NetworkError? ==> m == o.message
  {
    match o
    case HttpError(body) => if body == "" then "Server error" else body
    case NetworkError(message) => message
  }

  /** The generate handler (App.jsx:22-54), with the endpoint's answer `o`
      and the clock reading `now` as inputs. */
  function Generate(s: State, o: Outcome, now: int): (r: Run)
    // A blank prompt is refused before anything happens (App.jsx:23-26).
    ensures r.request == None <==> JsString.IsBlank(s.prompt)
    ensures JsString.IsBlank(s.prompt) ==>
              r.busy == None && r.final == s && r.notice == Some(BlankPrompt)
    // Otherwise the request carries the prompt and style, and while it is in
    // flight the state is loading with no video (App.jsx:27-28, 34).
    ensures !JsString.IsBlank(s.prompt) ==>
              && r.request == Some(Request(s.prompt, s.style))
              && r.busy.Some? && r.busy.value.loading && r.busy.value.videoUrl == None
              && r.busy.value.prompt == s.prompt && r.busy.value.style == s.style
              && r.busy.value.gallery == s.gallery
    // Loading is cleared on every outcome; prompt and style are kept
    // (App.jsx:51-53).
    ensures !JsString.IsBlank(s.prompt) ==>
              !r.final.loading && r.final.prompt == s.prompt && r.final.style == s.style
    // Success: the video becomes current and a new item heads the gallery,
    // followed by a prefix of the old gallery, at most 20 items in all
    // (App.jsx:42-47).
    ensures !JsString.IsBlank(s.prompt) && o.Ok? ==>
              && r.final.videoUrl == Some(o.url)
              && r.notice == None
              && 1 <= |r.final.gallery| <= Capacity
              && |r.final.gallery| == (if |s.gallery| < Capacity then |s.gallery| + 1 else Capacity)
              && r.final.gallery[0] == Item(now, s.prompt, s.style, o.url)
              && r.final.gallery[1..] <= s.gallery
    // Failure: no video, gallery untouched, and the error message reported
    // (App.jsx:37-39, 48-50).
    ensures !JsString.IsBlank(s.prompt) && !o.Ok? ==>
              && r.final.videoUrl == None
              && r.final.gallery == s.gallery
              && r.notice == Some(GenerationFailed(ErrorMessage(o)))
  {
    if JsString.IsBlank(s.prompt) then
      Run(None, None, s, Some(BlankPrompt))
    else
      var busy := s.(loading := true, videoUrl := None);
      match o
      case Ok(url) =>
        var item := Item(now, busy.prompt, busy.style, url);
        var final := busy.(videoUrl := Some(url), gallery := PushBounded(busy.gallery, item), loading := false);
        Run(Some(busy), Some(Request(s.prompt, s.style)), final, None)
      case _ =>
        var final := busy.(loading := false);
        Run(Some(busy), Some(Request(s.prompt, s.style)), final, Some(GenerationFailed(ErrorMessage(o))))
  }

  /** The Reset button (App.jsx:114): prompt emptied and current video
      dropped; style, loading flag and gallery untouched. */
  function Reset(s: State): (r: State)
    ensures r.prompt == "" && r.videoUrl == None
    ensures r.style == s.style && r.loading == s.loading && r.gallery == s.gallery
  {
    s.(prompt := "", videoUrl := None)
  }

  /** The Save to Gallery button exists only while `videoUrl` is truthy, that
      is, not null and not the empty string (App.jsx:123). */
  predicate SaveOffered(s: State)
    ensures SaveOffered(s) <==> s.videoUrl.Some? && |s.videoUrl.value| > 0
  {
    s.videoUrl.Some? && s.videoUrl.value != ""
  }

  /** The Save to Gallery button (App.jsx:128): an item built from the
      current prompt, style and video goes in front of the whole gallery;
      nothing is cut off and nothing else changes. */
  function Save(s: State, now: int): (r: State)
    requires SaveOffered(s)
    ensures |r.gallery| == |s.gallery| + 1
    ensures r.gallery[0] == Item(now, s.prompt, s.style, s.videoUrl.value)
    ensures r.gallery[1..] == s.gallery
    ensures r.(gallery := s.gallery) == s
  {
    s.(gallery := Push(s.gallery, Item(now, s.prompt, s.style, s.videoUrl.value)))
  }

  /** The Delete button (App.jsx:66-69): every item with the id is removed,
      the others are kept in order, and nothing else changes. */
  function RemoveFromGallery(s: State, id: int): (r: State)
    ensures forall x :: x in r.gallery <==> x in s.gallery && x.id != id
    ensures IsSubseq(r.gallery, s.gallery) && Avoids(r.gallery, id)
    ensures |r.gallery| == |s.gallery| - CountId(s.gallery, id)
    ensures r.(gallery := s.gallery) == s
  {
    WithoutIsLongestAvoidingSubseq(s.gallery, id, []);
    s.(gallery := Without(s.gallery, id))
  }

  /** True when the gallery holds at most 20 items. */
  predicate WithinCapacity(s: State) {
    |s.gallery| <= Capacity
  }

  /** Generate, Reset and Delete keep the gallery within 20 items; a
      successful generation even brings an overfull gallery back to 20. */
  lemma CapacityKeptExceptBySave(s: State, o: Outcome, now: int, id: int)
    requires WithinCapacity(s)
    ensures WithinCapacity(Generate(s, o, now).final)
    ensures WithinCapacity(Reset(s))
    ensures WithinCapacity(RemoveFromGallery(s, id))
  {
  }

  /** The component starts within the bound, with no Save button, and a
      submit from there is refused because the prompt is empty. */
  lemma InitialState(o: Outcome, now: int)
    ensures WithinCapacity(Initial()) && !SaveOffered(Initial())
    ensures Generate(Initial(), o, now).request == None
    ensures Generate(Initial(), o, now).final == Initial()
  {
    assert Initial().prompt == [];
  }

  /** When the Save button is shown: never after Reset or a failed run;
      after a successful run exactly when the object URL is non-empty. */
  lemma SaveOfferedAfterHandlers(s: State, o: Outcome, now: int)
    ensures !SaveOffered(Reset(s))
    ensures !JsString.IsBlank(s.prompt) && !o.Ok? ==> !SaveOffered(Generate(s, o, now).final)
    ensures !JsString.IsBlank(s.prompt) && o.Ok? ==>
              (SaveOffered(Generate(s, o, now).final) <==> o.url != "")
  {
  }

  /** Save to Gallery does not keep that bound: from a full gallery it
      reaches 21 items, which only a later successful generation cuts back. */
  lemma SaveBreaksCapacity(s: State, now: int, o: Outcome, later: int)
    requires SaveOffered(s) && |s.gallery| == Capacity
    ensures !WithinCapacity(Save(s, now))
    ensures !JsString.IsBlank(s.prompt) && o.Ok? ==>
              |Generate(Save(s, now), o, later).final.gallery| == Capacity
  {
  }

  /** After Reset, generate is refused: the prompt is blank, so no request
      is issued and the state stays as Reset left it. */
  lemma GenerateAfterResetIsRefused(s: State, o: Outcome, now: int)
    ensures Generate(Reset(s), o, now).request == None
    ensures Generate(Reset(s), o, now).final == Reset(s)
  {
    assert Reset(s).prompt == [];
  }

  /** A run's outcome decides the current video: a successful request leaves
      its video current, any other run leaves none, and a refused run leaves
      the one there was. */
  lemma CurrentVideoAfterGenerate(s: State, o: Outcome, now: int)
    ensures var r := Generate(s, o, now);
            r.final.videoUrl.Some? <==>
              (if r.request == None then s.videoUrl.Some? else o.Ok?)
  {
  }

  /** Deleting the item a successful generation just added restores the
      gallery, when the gallery had room and no older item shares the id. */
  lemma DeleteUndoesGenerate(s: State, url: string, now: int)
    requires !JsString.AllWs(s.prompt)
    requires Avoids(s.gallery, now) && |s.gallery| < Capacity
    ensures RemoveFromGallery(Generate(s, Ok(url), now).final, now).gallery == s.gallery
  {
    DeleteUndoesBoundedPush(s.gallery, Item(now, s.prompt, s.style, url));
  }

  /** A successful generation already puts its video in the gallery, so
      saving it afterwards stores it a second time: the gallery then starts
      with two items for the same video, the saved one first. */
  lemma GenerateThenSaveStoresTwice(s: State, url: string, t1: int, t2: int)
    requires !JsString.AllWs(s.prompt) && url != ""
    ensures var g := Generate(s, Ok(url), t1).final;
            SaveOffered(g) &&
            Save(g, t2).gallery[..2] == [Item(t2, s.prompt, s.style, url), Item(t1, s.prompt, s.style, url)]
  {
  }

  /** A prompt of three spaces is refused before any request. */
  lemma SpacesOnlyPromptIsRefused(s: State, o: Outcome, now: int)
    requires s.prompt == "   "
    ensures Generate(s, o, now).request == None
    ensures Generate(s, o, now).notice == Some(BlankPrompt)
  {
    assert JsString.AllWs(s.prompt) by {
      assert forall k :: 0 <= k < |s.prompt| ==> s.prompt[k] == ' ';
    }
  }

  /** A failure response with a non-empty body reports exactly that body,
      whatever the status, and leaves no current video. */
  lemma HttpErrorBodyIsReported(s: State, body: string, now: int)
    requires !JsString.AllWs(s.prompt) && body != ""
    ensures Generate(s, HttpError(body), now).notice == Some(GenerationFailed(body))
    ensures Generate(s, HttpError(body), now).final.videoUrl == None
  {
  }
}
