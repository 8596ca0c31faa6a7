/** The chat controller: a two-phase conversation (the first message is the
    user's location, every later one a follow-up) guarded by a single-flight
    `isLoading` flag, over an append-only message list and transcript.

    Each asynchronous handler is split at its `await`s: the method named after
    the handler runs up to the first backend call, and one method per reply
    runs the continuation. `pending` names the continuation that is waiting. */
module Conversation {
  import opened Basics
  import opened JsStrings
  import opened Gemini

  datatype Sender = User | Ai

  datatype Message = Message(id: nat, sender: Sender, text: string, imageUrl: Option<string>)

  datatype Role = UserRole | ModelRole

  /** One entry of the transcript sent to the backend. */
  datatype ChatTurn = ChatTurn(role: Role, text: string)

  /** A call into the backend service, with what it is sent. */
  datatype Request =
    | CulinaryAnalysis(location: string)
    | FindRestaurants(history: seq<ChatTurn>)
    | ContinueChat(history: seq<ChatTurn>)
    | GenerateDishImage(prompt: string)
    | AnalyzeImage(base64Image: string)

  /** A backend call, and whether `isLoading` was set when it was made. */
  datatype BackendCall = BackendCall(request: Request, whileLoading: bool)

  /** The continuation that waits for a backend reply, if any. */
  datatype Pending =
    | Idle
    | InitialAnalysis   // handleInitialQuery, waiting for the culinary analysis
    | InitialSearch     // handleInitialQuery, waiting for the restaurant search
    | FollowUpSearch    // handleFollowUpQuery, waiting for findRestaurants
    | FollowUpChat      // handleFollowUpQuery, waiting for continueChat
    | LocalSearch       // findLocalRestaurants
    | ImageAnalysis     // onImageSelected

  /** What `parseAnalysis` returns. */
  datatype Analysis = Analysis(text: string, imagePrompt: Option<string>)

  const Welcome := "Dobrodošli u Lamb Advisor! Ja sam vaš osobni AI gurman, spreman istražiti najbolja svjetska jela od janjetine i kozletine. Da bismo započeli naše kulinarsko putovanje, molim vas, recite mi svoju trenutnu lokaciju."
  const ConnectionApology := "Ispričavam se, ali čini se da imam problema s povezivanjem sa svojom kulinarskom bazom znanja. Molimo pokušajte ponovno za trenutak."
  const ImageQuestion := "Što mislite o ovom jelu?"
  const ImageApology := "Žao mi je, nisam uspio analizirati ovu sliku. Molimo pokušajte s drugom."
  const NearbyRequest := "Pronađi najbolje restorane u mojoj blizini koji poslužuju lokalne specijalitete o kojima smo pričali."
  const LocalSearchApology := "Ispričavam se, došlo je do pogreške pri traženju restorana. Molimo pokušajte ponovno."
  const InitialSearchApology := "Ispričavam se, došlo je do pogreške pri traženju restorana. Možete pokušati ponovno koristeći gumb za restorane."
  const FollowUpApology := "Ispričavam se, naišao sam na problem prilikom obrade vašeg zahtjeva. Molimo pokušajte ponovno."

  const ImagePromptMarker := "IMAGE_PROMPT:"

  const RestaurantKeywords: seq<string> := ["restoran", "pronađi", "nađi", "gdje", "pokaži", "da", "molim"]

  /** An occurrence inside a slice is an occurrence in the whole string. */
  lemma OccursInSlice(s: string, a: nat, b: nat, p: string, j: nat)
    requires a <= b <= |s| && OccursAt(s[a..b], p, j)
    ensures OccursAt(s, p, a + j)
  {
    var x := s[a..b][j..j + |p|];
    var y := s[a + j..a + j + |p|];
    forall t | 0 <= t < |p|
      ensures x[t] == y[t]
    {
    }
    assert x == y;
  }

  /** `parseAnalysis`: split the analysis at the first marker, trimming both
      sides; without a marker the text is kept whole and there is no prompt. */
  function ParseAnalysis(s: string): Analysis
  {
    match IndexOf(s, ImagePromptMarker)
    case None => Analysis(s, None)
    case Some(i) => Analysis(Trim(s[..i]), Some(Trim(s[i + |ImagePromptMarker|..])))
  }

  /** Without a marker the analysis is the whole text and asks for no image;
      with one, the text before its first occurrence and the prompt after it,
      both trimmed. */
  lemma ParseAnalysisSplitsAtFirstMarker(s: string)
    ensures (forall j: nat :: !OccursAt(s, ImagePromptMarker, j)) ==> ParseAnalysis(s) == Analysis(s, None)
    ensures forall i: nat | OccursAt(s, ImagePromptMarker, i) && (forall j: nat :: j < i ==> !OccursAt(s, ImagePromptMarker, j)) ::
              ParseAnalysis(s) == Analysis(Trim(s[..i]), Some(Trim(s[i + |ImagePromptMarker|..])))
  {
    var m := ImagePromptMarker;
    match IndexOf(s, m) {
      case None =>
      case Some(k) =>
        forall i: nat | OccursAt(s, m, i) && (forall j: nat :: j < i ==> !OccursAt(s, m, j))
          ensures ParseAnalysis(s) == Analysis(Trim(s[..i]), Some(Trim(s[i + |m|..])))
        {
          assert i == k;
        }
    }
  }

  /** The text shown to the user never contains the marker. */
  lemma ParseAnalysisHidesMarker(s: string)
    ensures !Contains(ParseAnalysis(s).text, ImagePromptMarker)
  {
    var m := ImagePromptMarker;
    var idx := IndexOf(s, m);
    if idx.Some? {
      var i := idx.value;
      var t := Trim(s[..i]);
      TrimIsSlice(s[..i]);
      var a, b :| 0 <= a <= b <= i && t == s[..i][a..b];
      forall j: nat
        ensures !OccursAt(t, m, j)
      {
        if OccursAt(t, m, j) {
          OccursInSlice(s[..i], a, b, m, j);
          OccursInSlice(s, 0, i, m, a + j);
        }
      }
    }
  }

  /** No proper suffix of the marker is a prefix of it, so the marker cannot
      start inside text that precedes a marker without containing one. */
  lemma MarkerUnbordered(s: string, j: nat, k: nat)
    requires j < k && OccursAt(s, ImagePromptMarker, k)
    requires k < j + |ImagePromptMarker|
    ensures !OccursAt(s, ImagePromptMarker, j)
  {
    var m := ImagePromptMarker;
    var t := k - j;
    assert s[k..k + |m|][0] == 'I';
    assert m[t] != 'I';
    if j + |m| <= |s| {
      assert s[j..j + |m|][t] == s[k];
    }
  }

  /** Inverse of `ParseAnalysis`: text without a marker, the marker and a
      prompt split back into the trimmed text and the trimmed prompt. */
  lemma ParseAnalysisRoundTrip(text: string, prompt: string)
    requires !Contains(text, ImagePromptMarker)
    ensures ParseAnalysis(text + ImagePromptMarker + prompt) == Analysis(Trim(text), Some(Trim(prompt)))
  {
    var m := ImagePromptMarker;
    var s := text + m + prompt;
    var k := |text|;
    assert s[k..k + |m|] == m;
    assert OccursAt(s, m, k);
    forall j: nat | j < k
      ensures !OccursAt(s, m, j)
    {
      if j + |m| <= k {
        if OccursAt(s, m, j) {
          assert s[j..j + |m|] == text[j..j + |m|];
          assert OccursAt(text, m, j);
        }
      } else {
        MarkerUnbordered(s, j, k);
      }
    }
    assert s[..k] == text;
    assert s[k + |m|..] == prompt;
  }

  /** `keywords.some(k => text.includes(k))` */
  function AnyKeywordIn(text: string, keywords: seq<string>): (b: bool)
    ensures b <==> exists i :: 0 <= i < |keywords| && Contains(text, keywords[i])
  {
    if keywords == [] then false
    else
      assert forall i :: 1 <= i < |keywords| ==> keywords[i] == keywords[1..][i - 1];
      Contains(text, keywords[0]) || AnyKeywordIn(text, keywords[1..])
  }

  /** The keyword intent detection of a follow-up message. */
  function IsRestaurantQuery(message: string): bool
  {
    AnyKeywordIn(Lower(message), RestaurantKeywords)
  }

  /** A follow-up asks for restaurants exactly when its lower-cased text
      contains one of the keywords. */
  lemma RestaurantQueryIff(message: string)
    ensures IsRestaurantQuery(message) <==>
              exists i :: 0 <= i < |RestaurantKeywords| && Contains(Lower(message), RestaurantKeywords[i])
  {
  }

  /** The keywords match anywhere in the message, regardless of case, even
      inside another word: "Kada?" contains "da". */
  lemma KeywordsMatchInsideWords()
    ensures IsRestaurantQuery("Gdje?")
    ensures IsRestaurantQuery("Kada?")
  {
    var g, k := Lower("Gdje?"), Lower("Kada?");
    assert g == "gdje?" && k == "kada?";
    assert RestaurantKeywords[3] == "gdje" && RestaurantKeywords[5] == "da";
    assert OccursAt(g, RestaurantKeywords[3], 0);
    assert OccursAt(k, RestaurantKeywords[5], 2);
  }

  /** The backend call a follow-up makes: a restaurant search when the
      message asks for one and a location is known, a chat turn otherwise. */
  function FollowUpRequest(message: string, userLocation: Option<string>, history: seq<ChatTurn>): (r: Request)
    ensures r.FindRestaurants? <==> IsRestaurantQuery(message) && Truthy(userLocation)
    ensures r.FindRestaurants? || r.ContinueChat?
    ensures r.history == history
  {
    if IsRestaurantQuery(message) && Truthy(userLocation) then FindRestaurants(history) else ContinueChat(history)
  }

  /** `current.find(m => m.text === text)` as an index. */
  function FirstWithText(ms: seq<Message>, text: string): (r: Option<nat>)
    ensures r.Some? ==> r.value < |ms| && ms[r.value].text == text
    ensures r.Some? ==> forall j :: 0 <= j < r.value ==> ms[j].text != text
    ensures r.None? ==> forall j :: 0 <= j < |ms| ==> ms[j].text != text
  {
    if ms == [] then None
    else if ms[0].text == text then Some(0)
    else
      assert forall j :: 1 <= j < |ms| ==> ms[j] == ms[1..][j - 1];
      match FirstWithText(ms[1..], text)
      case None => None
      case Some(i) => Some(i + 1)
  }

  /** The late image attach: the first message whose text equals `text`,
      whoever sent it, gets the image; nothing else changes. */
  function WithImageAttached(ms: seq<Message>, text: string, url: string): (r: seq<Message>)
    ensures |r| == |ms|
    ensures forall i :: 0 <= i < |ms| ==>
              r[i].id == ms[i].id && r[i].sender == ms[i].sender && r[i].text == ms[i].text
    ensures forall i :: 0 <= i < |ms| ==>
              r[i].imageUrl == if ms[i].text == text && (forall j :: 0 <= j < i ==> ms[j].text != text)
                               then Some(url) else ms[i].imageUrl
  {
    match FirstWithText(ms, text)
    case None => ms
    case Some(i) => ms[i := ms[i].(imageUrl := Some(url))]
  }

  /** The image lands at most once: attaching the same image again changes nothing. */
  lemma AttachIdempotent(ms: seq<Message>, text: string, url: string)
    ensures WithImageAttached(WithImageAttached(ms, text, url), text, url) == WithImageAttached(ms, text, url)
  {
    var once := WithImageAttached(ms, text, url);
    var twice := WithImageAttached(once, text, url);
    forall i | 0 <= i < |ms|
      ensures twice[i] == once[i]
    {
      assert forall j :: 0 <= j < i ==> (once[j].text != text <==> ms[j].text != text);
    }
  }

  /** The dish image an analysis asks for, waiting to be attached to its text. */
  function ImageJobs(analysis: Analysis): seq<string>
  {
    if Truthy(analysis.imagePrompt) then [analysis.text] else []
  }

  /** The calls that follow an analysis: the image generation, when there is
      a prompt, and the restaurant search over the transcript `h`. */
  function AnalysisCalls(analysis: Analysis, h: seq<ChatTurn>): seq<BackendCall>
  {
    (if Truthy(analysis.imagePrompt) then [BackendCall(GenerateDishImage(analysis.imagePrompt.value), true)] else [])
    + [BackendCall(FindRestaurants(h), true)]
  }

  /** The AI message that ends a request: the reply's text, or the apology. */
  function AnswerMessage(response: Reply<string>, apology: string, now: nat): Message
  {
    Message(now, Ai, if response.Success? then response.value else apology, None)
  }

  /** What a request adds to the transcript: the reply's text, or nothing. */
  function AnswerTurns(response: Reply<string>): seq<ChatTurn>
  {
    if response.Success? then [ChatTurn(ModelRole, response.value)] else []
  }

  class AppComponent {
    var messages: seq<Message>
    var userInput: string
    var isLoading: bool
    var userLocation: Option<string>
    var conversationStarted: bool
    var chatHistory: seq<ChatTurn>
    /** The continuation waiting for a reply. */
    var pending: Pending
    /** The texts of the analysis messages whose dish image is still being generated. */
    var imageJobs: seq<string>
    /** Every backend call made so far. */
    ghost var calls: seq<BackendCall>

    /** The welcome message stays first, `isLoading` is set exactly while a
        reply is awaited, a started conversation knows the location, and
        every backend call was made while `isLoading` was set. */
    ghost predicate Valid()
      reads this
    {
      && |messages| >= 1 && messages[0].sender == Ai && messages[0].text == Welcome
      && (isLoading <==> pending != Idle)
      && (conversationStarted ==> Truthy(userLocation))
      && (pending == InitialAnalysis || pending == InitialSearch ==> !conversationStarted && Truthy(userLocation))
      && (pending == FollowUpSearch || pending == FollowUpChat ==> conversationStarted)
      && (forall c :: c in calls ==> c.whileLoading)
    }

    constructor (now: nat)
      ensures messages == [Message(now, Ai, Welcome, None)]
      ensures userInput == "" && !isLoading && userLocation == None && !conversationStarted
      ensures chatHistory == [] && pending == Idle && imageJobs == [] && calls == []
      ensures Valid()
    {
      messages := [Message(now, Ai, Welcome, None)];
      userInput := "";
      isLoading := false;
      userLocation := None;
      conversationStarted := false;
      chatHistory := [];
      pending := Idle;
      imageJobs := [];
      calls := [];
    }

    /** The input box's two-way binding. */
    method SetUserInput(text: string)
      modifies this`userInput
      ensures userInput == text
    {
      userInput := text;
    }

    method AddUserMessage(text: string, now: nat)
      modifies this`messages
      ensures messages == old(messages) + [Message(now, User, text, None)]
    {
      messages := messages + [Message(now, User, text, None)];
    }

    method AddAiMessage(text: string, now: nat)
      modifies this`messages
      ensures messages == old(messages) + [Message(now, Ai, text, None)]
    {
      messages := messages + [Message(now, Ai, text, None)];
    }

    /** `sendMessage` up to its first backend call. */
    method SendMessage(now: nat)
      requires Valid()
      modifies this`messages, this`userInput, this`isLoading, this`userLocation, this`chatHistory, this`pending, this`calls
      ensures Valid()
      ensures Trim(old(userInput)) == [] || old(isLoading) ==> unchanged(this)
      ensures Trim(old(userInput)) != [] && !old(isLoading) ==>
                var m := Trim(old(userInput));
                var h := old(chatHistory) + [ChatTurn(UserRole, m)];
                && messages == old(messages) + [Message(now, User, m, None)]
                && userInput == "" && isLoading
                && chatHistory == h
                && (!conversationStarted ==>
                      && userLocation == Some(m)
                      && pending == InitialAnalysis
                      && calls == old(calls) + [BackendCall(CulinaryAnalysis(m), true)])
                && (conversationStarted ==>
                      var req := FollowUpRequest(m, userLocation, h);
                      && userLocation == old(userLocation)
                      && pending == (if req.FindRestaurants? then FollowUpSearch else FollowUpChat)
                      && calls == old(calls) + [BackendCall(req, true)])
    {
      var userMessage := Trim(userInput);
      if userMessage == [] || isLoading {
        return;
      }
      AddUserMessage(userMessage, now);
      userInput := "";
      isLoading := true;
      if !conversationStarted {
        BeginInitialQuery(userMessage);
      } else {
        BeginFollowUpQuery(userMessage);
      }
    }

    /** `handleInitialQuery` up to the culinary analysis call. */
    method BeginInitialQuery(location: string)
      requires isLoading
      modifies this`userLocation, this`chatHistory, this`pending, this`calls
      ensures userLocation == Some(location)
      ensures chatHistory == old(chatHistory) + [ChatTurn(UserRole, location)]
      ensures pending == InitialAnalysis
      ensures calls == old(calls) + [BackendCall(CulinaryAnalysis(location), true)]
    {
      userLocation := Some(location);
      chatHistory := chatHistory + [ChatTurn(UserRole, location)];
      calls := calls + [BackendCall(CulinaryAnalysis(location), isLoading)];
      pending := InitialAnalysis;
    }

    /** `handleFollowUpQuery` up to its backend call. */
    method BeginFollowUpQuery(message: string)
      requires isLoading
      modifies this`chatHistory, this`pending, this`calls
      ensures chatHistory == old(chatHistory) + [ChatTurn(UserRole, message)]
      ensures var req := FollowUpRequest(message, userLocation, chatHistory);
              && pending == (if req.FindRestaurants? then FollowUpSearch else FollowUpChat)
              && calls == old(calls) + [BackendCall(req, true)]
    {
      chatHistory := chatHistory + [ChatTurn(UserRole, message)];
      var isRestaurantQuery := IsRestaurantQuery(message);
      if isRestaurantQuery && Truthy(userLocation) {
        calls := calls + [BackendCall(FindRestaurants(chatHistory), isLoading)];
        pending := FollowUpSearch;
      } else {
        calls := calls + [BackendCall(ContinueChat(chatHistory), isLoading)];
        pending := FollowUpChat;
      }
    }

    /** The culinary analysis arrives. A failure escapes `handleInitialQuery`:
        `sendMessage` apologises and the conversation does not start. Otherwise
        the analysis is shown, the dish image is requested when there is a
        prompt, and the restaurant search is sent. */
    method AnalysisArrived(reply: Reply<Option<string>>, now: nat)
      requires Valid() && pending == InitialAnalysis
      modifies this`messages, this`isLoading, this`chatHistory, this`pending, this`imageJobs, this`calls
      ensures Valid()
      ensures reply.Failure? ==>
                && messages == old(messages) + [Message(now, Ai, ConnectionApology, None)]
                && !isLoading && pending == Idle && !conversationStarted
                && chatHistory == old(chatHistory) && imageJobs == old(imageJobs) && calls == old(calls)
      ensures reply.Success? ==>
                var raw := TextOrEmpty(reply.value);
                var analysis := ParseAnalysis(raw);
                && messages == old(messages) + [Message(now, Ai, analysis.text, None)]
                && chatHistory == old(chatHistory) + [ChatTurn(ModelRole, raw)]
                && isLoading && pending == InitialSearch
                && imageJobs == old(imageJobs) + ImageJobs(analysis)
                && calls == old(calls) + AnalysisCalls(analysis, chatHistory)
    {
      match TextReply(reply) {
        case Failure =>
          AddAiMessage(ConnectionApology, now);
          isLoading := false;
          pending := Idle;
        case Success(analysisText) =>
          var analysis := ParseAnalysis(analysisText);
          ShowAnalysis(analysisText, analysis, now);
      }
    }

    /** `handleInitialQuery` from the analysis to the restaurant search call. */
    method ShowAnalysis(analysisText: string, analysis: Analysis, now: nat)
      requires isLoading
      modifies this`messages, this`chatHistory, this`pending, this`imageJobs, this`calls
      ensures messages == old(messages) + [Message(now, Ai, analysis.text, None)]
      ensures chatHistory == old(chatHistory) + [ChatTurn(ModelRole, analysisText)]
      ensures pending == InitialSearch
      ensures imageJobs == old(imageJobs) + ImageJobs(analysis)
      ensures calls == old(calls) + AnalysisCalls(analysis, chatHistory)
    {
      AddAiMessage(analysis.text, now);
      chatHistory := chatHistory + [ChatTurn(ModelRole, analysisText)];
      if Truthy(analysis.imagePrompt) {
        // fired without waiting; its reply is taken by DishImageArrived
        imageJobs := imageJobs + [analysis.text];
        calls := calls + [BackendCall(GenerateDishImage(analysis.imagePrompt.value), isLoading)];
      }
      calls := calls + [BackendCall(FindRestaurants(chatHistory), isLoading)];
      pending := InitialSearch;
    }

    /** Shows a reply's text and records it in the transcript, or shows the
        apology when the request failed. */
    method Answer(response: Reply<string>, apology: string, now: nat)
      modifies this`messages, this`chatHistory
      ensures messages == old(messages) + [AnswerMessage(response, apology, now)]
      ensures chatHistory == old(chatHistory) + AnswerTurns(response)
    {
      match response
      case Success(text) =>
        AddAiMessage(text, now);
        chatHistory := chatHistory + [ChatTurn(ModelRole, text)];
      case Failure =>
        AddAiMessage(apology, now);
    }

    /** The restaurant search of the initial query arrives. Its failure is
        caught inside `handleInitialQuery`, so the conversation starts either way. */
    method InitialSearchArrived(reply: Reply<SearchResponse>, now: nat)
      requires Valid() && pending == InitialSearch
      modifies this`messages, this`isLoading, this`conversationStarted, this`chatHistory, this`pending
      ensures Valid()
      ensures messages == old(messages) + [AnswerMessage(FindRestaurantsReply(reply), InitialSearchApology, now)]
      ensures chatHistory == old(chatHistory) + AnswerTurns(FindRestaurantsReply(reply))
      ensures conversationStarted && !isLoading && pending == Idle
    {
      Answer(FindRestaurantsReply(reply), InitialSearchApology, now);
      conversationStarted := true;
      isLoading := false;
      pending := Idle;
    }

    /** The restaurant search of a follow-up arrives. */
    method FollowUpSearchArrived(reply: Reply<SearchResponse>, now: nat)
      requires Valid() && pending == FollowUpSearch
      modifies this`messages, this`isLoading, this`chatHistory, this`pending
      ensures Valid()
      ensures messages == old(messages) + [AnswerMessage(FindRestaurantsReply(reply), FollowUpApology, now)]
      ensures chatHistory == old(chatHistory) + AnswerTurns(FindRestaurantsReply(reply))
      ensures !isLoading && pending == Idle
    {
      Answer(FindRestaurantsReply(reply), FollowUpApology, now);
      isLoading := false;
      pending := Idle;
    }

    /** The chat reply of a follow-up arrives. */
    method FollowUpChatArrived(reply: Reply<Option<string>>, now: nat)
      requires Valid() && pending == FollowUpChat
      modifies this`messages, this`isLoading, this`chatHistory, this`pending
      ensures Valid()
      ensures messages == old(messages) + [AnswerMessage(TextReply(reply), FollowUpApology, now)]
      ensures chatHistory == old(chatHistory) + AnswerTurns(TextReply(reply))
      ensures !isLoading && pending == Idle
    {
      Answer(TextReply(reply), FollowUpApology, now);
      isLoading := false;
      pending := Idle;
    }

    /** `findLocalRestaurants` up to its backend call: ignored while loading
        or before a location is known. */
    method FindLocalRestaurants(now: nat)
      requires Valid()
      modifies this`messages, this`isLoading, this`chatHistory, this`pending, this`calls
      ensures Valid()
      ensures old(isLoading) || !Truthy(userLocation) ==> unchanged(this)
      ensures !old(isLoading) && Truthy(userLocation) ==>
                && messages == old(messages) + [Message(now, User, NearbyRequest, None)]
                && isLoading && pending == LocalSearch
                && chatHistory == old(chatHistory) + [ChatTurn(UserRole, NearbyRequest)]
                && calls == old(calls) + [BackendCall(FindRestaurants(chatHistory), true)]
    {
      if isLoading || !Truthy(userLocation) {
        return;
      }
      AddUserMessage(NearbyRequest, now);
      isLoading := true;
      chatHistory := chatHistory + [ChatTurn(UserRole, NearbyRequest)];
      calls := calls + [BackendCall(FindRestaurants(chatHistory), isLoading)];
      pending := LocalSearch;
    }

    /** The search requested by `findLocalRestaurants` arrives. */
    method LocalSearchArrived(reply: Reply<SearchResponse>, now: nat)
      requires Valid() && pending == LocalSearch
      modifies this`messages, this`isLoading, this`chatHistory, this`pending
      ensures Valid()
      ensures messages == old(messages) + [AnswerMessage(FindRestaurantsReply(reply), LocalSearchApology, now)]
      ensures chatHistory == old(chatHistory) + AnswerTurns(FindRestaurantsReply(reply))
      ensures !isLoading && pending == Idle
    {
      Answer(FindRestaurantsReply(reply), LocalSearchApology, now);
      isLoading := false;
      pending := Idle;
    }

    /** `onImageSelected` up to its backend call: the photo is shown as a
        user message and sent for analysis; ignored while loading. */
    method OnImageSelected(base64Image: string, now: nat)
      requires Valid()
      modifies this`messages, this`isLoading, this`pending, this`calls
      ensures Valid()
      ensures old(isLoading) ==> unchanged(this)
      ensures !old(isLoading) ==>
                && messages == old(messages) + [Message(now, User, ImageQuestion, Some(JpegDataUrl(base64Image)))]
                && isLoading && pending == ImageAnalysis
                && calls == old(calls) + [BackendCall(AnalyzeImage(base64Image), true)]
    {
      if isLoading {
        return;
      }
      messages := messages + [Message(now, User, ImageQuestion, Some(JpegDataUrl(base64Image)))];
      isLoading := true;
      calls := calls + [BackendCall(AnalyzeImage(base64Image), isLoading)];
      pending := ImageAnalysis;
    }

    /** The image analysis arrives; the transcript is not involved. */
    method ImageAnalysisArrived(reply: Reply<Option<string>>, now: nat)
      requires Valid() && pending == ImageAnalysis
      modifies this`messages, this`isLoading, this`pending
      ensures Valid()
      ensures messages == old(messages) + [AnswerMessage(TextReply(reply), ImageApology, now)]
      ensures !isLoading && pending == Idle
    {
      match TextReply(reply) {
        case Success(text) => AddAiMessage(text, now);
        case Failure => AddAiMessage(ImageApology, now);
      }
      isLoading := false;
      pending := Idle;
    }

    /** A dish image settles, at any later point, independently of `isLoading`.
        On success it is attached to the first message with the analysis text;
        a failure is only logged. */
    method DishImageArrived(job: nat, reply: Reply<Option<seq<GeneratedImage>>>)
      requires Valid() && job < |imageJobs|
      modifies this`messages, this`imageJobs
      ensures Valid()
      ensures imageJobs == old(imageJobs[..job] + imageJobs[job + 1..])
      ensures GenerateDishImageReply(reply).Success? ==>
                messages == WithImageAttached(old(messages), old(imageJobs[job]), GenerateDishImageReply(reply).value)
      ensures GenerateDishImageReply(reply).Failure? ==> messages == old(messages)
    {
      var text := imageJobs[job];
      imageJobs := imageJobs[..job] + imageJobs[job + 1..];
      match GenerateDishImageReply(reply)
      case Success(imageUrl) =>
        messages := WithImageAttached(messages, text, imageUrl);
      case Failure =>
    }
  }
}
