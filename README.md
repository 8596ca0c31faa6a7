# Lamb Advisor — a Dafny model of the chat core

Lamb Advisor is an Angular chat application. The user names a location. The backend model answers with a culinary
analysis of a local lamb or goat dish and a grounded search for restaurants that serve it. After that the user chats
on. This project models the logic that sits around the backend calls and proves properties of it:

- **`SearchHistory`** (`search_history.dfy`): the search-history store. `addSearch` removes every entry with the same
  key (the lower-cased location plus structurally equal filters), puts the new item in front and keeps the first 10.
- **`Favorites`** (`favorites.dfy`): the favorites store. Membership is by name. A toggle removes every entry with
  that name or appends a five-field copy.
- **`ChatMarkdown`** (`markdown.dfy`): `renderMarkdown`, the four global regular-expression rewrites (bold, italic,
  link, newline). Each is written out as the scan JavaScript's `replace` performs with these particular patterns:
  - the lazy `(.*?)` stops at the first closing delimiter and never crosses a line terminator;
  - the link text runs to the first `]` and the URL to the first `)`;
  - both link groups must be non-empty.
- **`Gemini`** (`gemini.dfy`): the pure parts of the backend wrapper.
  - The "Izvori" footer of a restaurant search: the grounding chunks filtered to those with a truthy URI and title,
    formatted as `[title](uri)`, deduplicated in first-occurrence order as a JavaScript `Set` does, and joined.
  - The `data:image/jpeg;base64,` URL of a generated dish image.
- **`Conversation`** (`conversation.dfy`): `AppComponent`, the controller.
  - Each `async` handler is split at its `await`s. The method named after the handler runs up to the first backend
    call. One method per reply runs the continuation.
  - The field `pending` says which continuation is waiting. So a second handler invoked during a call meets
    `isLoading` set and does nothing, which is the single-flight guard.
  - Backend calls are recorded in a ghost log. The invariant `Valid()` proves that every call was made while
    `isLoading` was set.
  - The fire-and-forget dish image settles through its own method, at any later point.
- **`JsStrings`** and **`Basics`**: the JavaScript string primitives the code relies on (`trim` with the exact
  ECMAScript white-space set, `indexOf`, `includes`, `toLowerCase`, `join`) and shared sequence facts.

Backend outcomes are parameters. `Reply<T>` is either `Success(value)` or `Failure`, for a rejected promise. The
`Date.now()` message ids are a `now` parameter.

Four facts about the code shape the model:

- **Dish image target.** The image is attached to the *first message whose text equals the analysis text*, not to
  "the most recent AI message". That message may be a user message, or an earlier AI message with the same text.
- **Awaiting the calls.** The culinary analysis and the restaurant search are awaited one after the other, and each
  adds its own message. They are not issued together.
- **No extra phases or parsing.** There is no location-confirmation phase, no structured or `---`-delimited listing
  parser, and no filter injection.
- **A failed analysis leaves state behind.** The phase stays "not started", but the location stays set and the
  location turn stays in the transcript. The next message is again taken as a location, and "find nearby
  restaurants" already works.

Some consequences of the code that the lemmas make visible:

- The keyword intent check matches inside words. "Kada?" contains "da" and is routed to the restaurant search
  (`KeywordsMatchInsideWords`).
- Once the conversation has started, the location is always set (`Valid`). So follow-up routing depends only on the
  keywords.
- In `renderMarkdown` the bold pass runs first. A `*` pair inside bold text is still split by the italic pass:
  `**a*b*c**` renders as `<strong>a<em>b</em>c</strong>` (`ItalicInsideBold`). A `**` left by the bold pass becomes an
  empty `<em></em>` (`BoldBeforeItalic`, `ItalicTrailing`).

## Model

| member | source | states |
|---|---|---|
| JsStrings.Trim | src/app.component.ts:43 | `trim` as the leading pass then the trailing pass; what it returns is stated by the five lemmas below |
| JsStrings.TrimStartSpec | src/app.component.ts:43 | the leading pass of `trim` cuts a white-space prefix and stops at the first other character |
| JsStrings.TrimEndSpec | src/app.component.ts:43 | the trailing pass of `trim` cuts a white-space suffix and stops at the last other character |
| JsStrings.TrimIsSlice | src/app.component.ts:43 | `trim` returns a slice of its input with only white space cut from either end |
| JsStrings.TrimEdges | src/app.component.ts:43 | what `trim` returns neither starts nor ends with white space |
| JsStrings.TrimEmptyIff | src/app.component.ts:43-44 | `trim` yields the empty string exactly when the input is all white space, which is when `sendMessage` ignores it |
| JsStrings.TrimIdempotent | src/app.component.ts:188-189 | trimming twice is trimming once |
| JsStrings.IndexOf | src/app.component.ts:186 | `indexOf` finds an occurrence that no earlier index has, and -1 (None) exactly when the pattern occurs nowhere |
| JsStrings.Contains | src/app.component.ts:159 | `includes` holds exactly when the pattern occurs at some index |
| JsStrings.Lower | src/app.component.ts:159 | `toLowerCase` character by character; `LowerIdempotent` states what it returns |
| JsStrings.LowerIdempotent | src/app.component.ts:159 | lower-casing keeps the length, and lower-casing twice is lower-casing once |
| JsStrings.Join | src/services/gemini.service.ts:148 | `join`; `JoinSnoc` states what it returns |
| JsStrings.JoinSnoc | src/services/gemini.service.ts:148 | joining one string gives that string, and joining one more puts the separator before it |
| SearchHistory.SameSearch | src/services/search-history.service.ts:32-33 | the key of an entry: its lower-cased location and its filters; `SameSearchEquivalence` states that it is an equivalence |
| SearchHistory.WithoutSearch | src/services/search-history.service.ts:31-34 | the filter never makes the list longer |
| SearchHistory.WithoutSearchMembers | src/services/search-history.service.ts:31-34 | the filter keeps exactly the entries whose key differs from the item's, and shrinks the list when some entry has the key |
| SearchHistory.AddedSearch | src/services/search-history.service.ts:28-39 | after `addSearch(item)` the item is first, the history holds 1 to 10 entries, and the item's key occurs at index 0 only |
| SearchHistory.WithoutSearchSubsequence | src/services/search-history.service.ts:31-34 | the filter keeps the surviving entries in their order |
| SearchHistory.WithoutSearchNoMatch | src/services/search-history.service.ts:31-34 | when no entry has the key, the filter changes nothing |
| SearchHistory.WithoutSearchOneMatch | src/services/search-history.service.ts:31-34 | when only the entry at k has the key, the filter removes exactly that entry |
| SearchHistory.WithoutSearchDistinct | src/services/search-history.service.ts:31-34 | filtering keeps keys distinct |
| SearchHistory.SameSearchEquivalence | src/services/search-history.service.ts:32-33 | the key comparison is reflexive, symmetric and transitive |
| SearchHistory.AddedSearchKeepsOrder | src/services/search-history.service.ts:31-38 | the entries behind the new item are the leading surviving old entries, in their old relative order, and the history holds exactly the smaller of 10 and one more than the surviving entries |
| SearchHistory.AddNewKeyKeepsAll | src/services/search-history.service.ts:31-38 | adding a new key to a history of fewer than 10 entries puts the item in front of the whole old history |
| SearchHistory.ReAddDoesNotGrow | src/services/search-history.service.ts:31-37 | re-adding a stored key does not lengthen the history |
| SearchHistory.ReAddMovesToFront | src/services/search-history.service.ts:31-37 | in a valid history, re-adding the key stored at k gives the item followed by the other entries in order |
| SearchHistory.AddToFullEvictsOldest | src/services/search-history.service.ts:37-38 | a new key added to a full history of 10 drops exactly the last (oldest) entry |
| SearchHistory.AddSearchIdempotent | src/services/search-history.service.ts:29-39 | adding the same item twice equals adding it once |
| SearchHistory.AddSearchPreservesValid | src/services/search-history.service.ts:28-39 | `addSearch` keeps the history within 10 entries with distinct keys |
| SearchHistory.SearchHistoryService.constructor | src/services/search-history.service.ts:10 | the history starts empty |
| SearchHistory.SearchHistoryService.AddSearch | src/services/search-history.service.ts:28-40 | the new history is the function above applied to the old one, and the invariant is kept |
| SearchHistory.SearchHistoryService.GetHistory | src/services/search-history.service.ts:42-44 | returns the current history |
| Favorites.AnyNamed | src/services/favorites.service.ts:30 | `some` holds exactly when an entry carries the name |
| Favorites.FavoriteCopy | src/services/favorites.service.ts:36-45 | the stored copy of a restaurant; `ToggleAppendsAbsent` states that it carries exactly the five fields |
| Favorites.Toggled | src/services/favorites.service.ts:33-46 | the list after a toggle; the `Toggle…` and `DoubleToggle…` lemmas below state what it is |
| Favorites.WithoutNamed | src/services/favorites.service.ts:35 | the filter never makes the list longer |
| Favorites.WithoutNamedMembers | src/services/favorites.service.ts:35 | the filter keeps exactly the entries with another name |
| Favorites.WithoutNamedSubsequence | src/services/favorites.service.ts:35 | the filter keeps the surviving entries in their order |
| Favorites.WithoutNamedAbsent | src/services/favorites.service.ts:35 | filtering an absent name changes nothing |
| Favorites.WithoutNamedAppend | src/services/favorites.service.ts:35 | the filter distributes over concatenation |
| Favorites.WithoutNamedShorter | src/services/favorites.service.ts:35 | filtering a present name shortens the list |
| Favorites.WithoutNamedOnly | src/services/favorites.service.ts:35 | when only the entry at k carries the name, the filter removes exactly it |
| Favorites.ToggleKeepsOthers | src/services/favorites.service.ts:33-46 | the entries with other names, in order, are the same before and after a toggle |
| Favorites.ToggleRemovesPresent | src/services/favorites.service.ts:34-35 | toggling a present name leaves no entry with it, keeps every other entry in order and shortens the list |
| Favorites.ToggleAppendsAbsent | src/services/favorites.service.ts:36-45 | toggling an absent name appends one entry carrying exactly the five fields of the argument, keeps the prefix, and makes the name a favorite |
| Favorites.DoubleToggleAbsentRestores | src/services/favorites.service.ts:33-46 | toggling an absent restaurant twice restores the list |
| Favorites.DoubleTogglePresentPermutes | src/services/favorites.service.ts:33-46 | with unique names, toggling a stored restaurant twice gives a permutation of the list |
| Favorites.TogglePreservesUniqueNames | src/services/favorites.service.ts:33-46 | unique names stay unique after a toggle |
| Favorites.SubsequenceUniqueNames | src/services/favorites.service.ts:35 | keeping some entries in order keeps names unique |
| Favorites.FavoritesService.constructor | src/services/favorites.service.ts:9 | the favorites start empty |
| Favorites.FavoritesService.IsFavorite | src/services/favorites.service.ts:29-31 | true exactly when a stored restaurant has the name |
| Favorites.FavoritesService.ToggleFavorite | src/services/favorites.service.ts:33-47 | the new list is the toggle of the old, the name's favorite status flips, and unique names are kept |
| Favorites.FavoritesService.GetFavorites | src/services/favorites.service.ts:49-51 | returns the current list |
| ChatMarkdown.Emphasis | src/components/chat-message/chat-message.component.ts:21-23 | one global lazy emphasis rewrite; `EmphasisSpan`, `EmphasisAppendPlain` and `EmphasisWithoutStar` state what it returns |
| ChatMarkdown.Bold | src/components/chat-message/chat-message.component.ts:21 | the bold rewrite; `BoldSpanAlone` and `BoldAroundSingleStars` state what it returns |
| ChatMarkdown.Italic | src/components/chat-message/chat-message.component.ts:23 | the italic rewrite; `ItalicSplitsBold`, `ItalicTrailing` and `ItalicSpanBeforePlain` state what it returns |
| ChatMarkdown.Links | src/components/chat-message/chat-message.component.ts:25 | the link rewrite; `LinkAlone` and `LinksWithoutBracket` state what it returns |
| ChatMarkdown.CloseFrom | src/components/chat-message/chat-message.component.ts:21-23 | the lazy group ends at a closing delimiter with no earlier delimiter and no line terminator before it |
| ChatMarkdown.CloseFromFinds | src/components/chat-message/chat-message.component.ts:21-23 | the lazy group ends at the first closing delimiter of the line |
| ChatMarkdown.FirstFrom | src/components/chat-message/chat-message.component.ts:25 | `[^\]]+` and `[^)]+` run to the first `]` or `)` |
| ChatMarkdown.FirstFromFinds | src/components/chat-message/chat-message.component.ts:25 | the group ends at the first `]` or `)` from where it starts, whenever there is one |
| ChatMarkdown.LinkAt | src/components/chat-message/chat-message.component.ts:25 | a link match is exactly `[t](u)` with t, u non-empty, t free of `]` and u free of `)` |
| ChatMarkdown.LinkAtMatches | src/components/chat-message/chat-message.component.ts:25 | every such `[t](u)` is matched, with t and u as the groups |
| ChatMarkdown.LinkAlone | src/components/chat-message/chat-message.component.ts:25 | the link pass turns `[t](u)` into an anchor with href u and text t |
| ChatMarkdown.Newlines | src/components/chat-message/chat-message.component.ts:27 | no newline survives the newline pass, and text without one is kept |
| ChatMarkdown.NewlinesAppend | src/components/chat-message/chat-message.component.ts:27 | the newline pass works on each part of a concatenation separately, and turns `\n` into `<br>` |
| ChatMarkdown.RenderMarkdown | src/components/chat-message/chat-message.component.ts:15-29 | empty text renders as empty, and the output never contains a newline |
| ChatMarkdown.EmphasisWithoutStar | src/components/chat-message/chat-message.component.ts:21-23 | the bold and italic passes leave text without `*` unchanged |
| ChatMarkdown.LinksWithoutBracket | src/components/chat-message/chat-message.component.ts:25 | the link pass leaves text without `[` unchanged |
| ChatMarkdown.PlainTextUnchanged | src/components/chat-message/chat-message.component.ts:21-27 | text without `*`, `[` or newline is returned unchanged |
| ChatMarkdown.EmphasisSpan | src/components/chat-message/chat-message.component.ts:21-23 | a delimited span without `*` or line terminator becomes the tagged span, and the scan resumes after it |
| ChatMarkdown.EmphasisAppendPlain | src/components/chat-message/chat-message.component.ts:21-23 | text without `*` passes through an emphasis pass unchanged in front of the rest |
| ChatMarkdown.BoldSpanAlone | src/components/chat-message/chat-message.component.ts:21 | the bold pass turns `**x**` into `<strong>x</strong>` |
| ChatMarkdown.StrongWithoutMarkup | src/components/chat-message/chat-message.component.ts:23-27 | the italic, link and newline passes leave `<strong>x</strong>` alone when x has no markup |
| ChatMarkdown.RenderBold | src/components/chat-message/chat-message.component.ts:15-29 | `**x**` renders as `<strong>x</strong>` |
| ChatMarkdown.ItalicSplitsBold | src/components/chat-message/chat-message.component.ts:23 | without the bold pass first, the italic pass would turn `**x**` into `<em></em>x<em></em>` |
| ChatMarkdown.ItalicTrailing | src/components/chat-message/chat-message.component.ts:23 | a trailing `**` becomes an empty `<em></em>` |
| ChatMarkdown.BoldBeforeItalic | src/components/chat-message/chat-message.component.ts:21-23 | the pass order matters: bold first renders `**x**` as strong text, italic first would not |
| ChatMarkdown.AnchorWithoutNewline | src/components/chat-message/chat-message.component.ts:25-27 | an anchor built from newline-free parts has no newline |
| ChatMarkdown.RenderLink | src/components/chat-message/chat-message.component.ts:15-29 | `[t](u)` renders as an anchor with href u and text t |
| ChatMarkdown.RenderLineBreak | src/components/chat-message/chat-message.component.ts:15-29 | two markup-free lines joined by `\n` render as the two lines joined by `<br>` |
| ChatMarkdown.BoldAroundSingleStars | src/components/chat-message/chat-message.component.ts:21 | the lazy bold group runs over single `*`: `**a*b*c**` becomes `<strong>a*b*c</strong>` |
| ChatMarkdown.ItalicSpanBeforePlain | src/components/chat-message/chat-message.component.ts:23 | the italic pass turns `*b*` followed by markup-free text into `<em>b</em>` followed by that text |
| ChatMarkdown.ItalicSpanBetweenPlain | src/components/chat-message/chat-message.component.ts:23 | the italic pass turns markup-free text, `*b*` and markup-free text into the same text with `<em>b</em>` in the middle |
| ChatMarkdown.ItalicInsideStrong | src/components/chat-message/chat-message.component.ts:23 | the italic pass splits the `*` pair left inside `<strong>…</strong>` |
| ChatMarkdown.ItalicInsideBold | src/components/chat-message/chat-message.component.ts:15-29 | `**a*b*c**` renders as `<strong>a<em>b</em>c</strong>` |
| ChatMarkdown.FooterLinkRendered | src/services/gemini.service.ts:143 | a footer source link renders as an anchor to its URI labelled with its title |
| Gemini.Sources | src/services/gemini.service.ts:139-143 | there are never more sources than chunks |
| Gemini.SourcesSpec | src/services/gemini.service.ts:139-143 | every source is `[title](uri)` of a chunk with a truthy URI and title, and there are none exactly when no chunk qualifies |
| Gemini.SourcesAppend | src/services/gemini.service.ts:139-143 | the sources of consecutive chunk lists are concatenated in order |
| Gemini.Unique | src/services/gemini.service.ts:145 | `[...new Set(sources)]`; `UniqueSnoc`, `UniqueProperties` and `UniqueOfDistinct` state what it returns |
| Gemini.UniqueSnoc | src/services/gemini.service.ts:145 | the Set keeps the first occurrence: a repeated source adds nothing, a new one goes last |
| Gemini.UniqueProperties | src/services/gemini.service.ts:145 | the deduplicated sources have no repeats, the same members, and the original order |
| Gemini.UniqueOfDistinct | src/services/gemini.service.ts:145 | sources that are already distinct are kept as they are |
| Gemini.FindRestaurantsText | src/services/gemini.service.ts:135-152 | the string `findRestaurants` resolves with; `FooterIffCitable` states what it is |
| Gemini.FooterIffCitable | src/services/gemini.service.ts:135-152 | the footer `\n\n**Izvori:**\n` plus the joined unique sources is appended exactly when some chunk qualifies; otherwise the answer is the model text, `''` when absent |
| Gemini.TextReply | src/services/gemini.service.ts:34 | the outcome of a plain text call; `ReplyOutcome` states it |
| Gemini.FindRestaurantsReply | src/services/gemini.service.ts:135-157 | the outcome of a grounded search call; `ReplyOutcome` states it |
| Gemini.ReplyOutcome | src/services/gemini.service.ts:135-157 | a call resolves exactly when it succeeds: a plain call with its text or `''`, a search with `FindRestaurantsText` of its response |
| Gemini.DataUrlRoundTrip | src/services/gemini.service.ts:55 | the JPEG data URL is the prefix followed by the bytes, which can be read back |
| Gemini.DishImageUrl | src/services/gemini.service.ts:53-57 | an image list that is missing or empty is an error; otherwise the URL carries the first image's bytes |
| Gemini.GenerateDishImageReply | src/services/gemini.service.ts:41-63 | `generateDishImage` resolves exactly when the call succeeds with a non-empty image list |
| Conversation.ParseAnalysis | src/app.component.ts:184-193 | splits an analysis at `IMAGE_PROMPT:`; the three lemmas below state what it returns |
| Conversation.ParseAnalysisSplitsAtFirstMarker | src/app.component.ts:184-193 | without the marker the text is returned with no prompt; otherwise the trimmed text before the first marker and the trimmed text after it |
| Conversation.ParseAnalysisHidesMarker | src/app.component.ts:184-193 | the text shown to the user never contains the marker |
| Conversation.ParseAnalysisRoundTrip | src/app.component.ts:184-193 | a marker-free text, the marker and a prompt split back into the trimmed text and the trimmed prompt |
| Conversation.IsRestaurantQuery | src/app.component.ts:159 | the keyword intent check; `RestaurantQueryIff` and `KeywordsMatchInsideWords` state what it returns |
| Conversation.AnyKeywordIn | src/app.component.ts:159 | `some` over the keywords holds exactly when the text includes one of them |
| Conversation.RestaurantQueryIff | src/app.component.ts:159 | true exactly when the lower-cased message includes one of the seven keywords |
| Conversation.KeywordsMatchInsideWords | src/app.component.ts:159 | the match ignores case and word boundaries: "Gdje?" and "Kada?" are restaurant queries |
| Conversation.FollowUpRequest | src/app.component.ts:159-167 | a follow-up goes to the restaurant search exactly when it is a restaurant query and the location is set, otherwise to the chat; both carry the transcript |
| Conversation.FirstWithText | src/app.component.ts:131 | `find` yields the first message with the text, or none when no message has it |
| Conversation.WithImageAttached | src/app.component.ts:129-141 | only the first message with the analysis text gets the image; ids, senders, texts and every other image are unchanged |
| Conversation.AttachIdempotent | src/app.component.ts:129-141 | attaching the same image twice equals attaching it once |
| Conversation.AppComponent.Valid | src/app.component.ts:19-57 | the component invariant: the welcome message is first; `isLoading` holds exactly while a continuation waits; a started conversation has a location; the initial analysis and search wait only before the start and with a location, the follow-up replies only after it; every logged backend call was made while loading |
| Conversation.AppComponent.constructor | src/app.component.ts:19-36 | the chat starts with the welcome AI message, nothing loading, no location, an empty transcript |
| Conversation.AppComponent.SetUserInput | src/app.component.ts:20 | the input box sets `userInput` |
| Conversation.AppComponent.AddUserMessage | src/app.component.ts:176-178 | appends exactly one user message and keeps the earlier ones |
| Conversation.AppComponent.AddAiMessage | src/app.component.ts:180-182 | appends exactly one AI message and keeps the earlier ones |
| Conversation.AppComponent.Answer | src/app.component.ts:145-152 | ends a request: appends the reply text or the apology as an AI message, and records the reply in the transcript only on success |
| Conversation.AppComponent.SendMessage | src/app.component.ts:42-57 | blank input or a pending call changes nothing; otherwise the trimmed message is shown, the input cleared, `isLoading` set, the message added to the transcript, and the analysis or the routed follow-up request made while loading |
| Conversation.AppComponent.BeginInitialQuery | src/app.component.ts:115-120 | sets the location, records it in the transcript and requests the culinary analysis |
| Conversation.AppComponent.BeginFollowUpQuery | src/app.component.ts:155-167 | records the message in the transcript and makes the routed request |
| Conversation.AppComponent.AnalysisArrived | src/app.component.ts:52-62 | a failed analysis appends the one connection apology, clears `isLoading` and leaves the conversation unstarted; a successful one continues the initial query |
| Conversation.AppComponent.ShowAnalysis | src/app.component.ts:121-146 | shows the parsed text, records the raw analysis, starts the image generation only for a truthy prompt, then requests the restaurant search |
| Conversation.AppComponent.InitialSearchArrived | src/app.component.ts:145-152 | shows the search result and records it, or shows the initial-search apology; the conversation starts either way and `isLoading` is cleared |
| Conversation.AppComponent.FollowUpSearchArrived | src/app.component.ts:163-173 | shows and records the search result, or shows the follow-up apology; `isLoading` is cleared |
| Conversation.AppComponent.FollowUpChatArrived | src/app.component.ts:165-173 | shows and records the chat reply, or shows the follow-up apology; `isLoading` is cleared |
| Conversation.AppComponent.FindLocalRestaurants | src/app.component.ts:92-103 | ignored while loading or without a location; otherwise shows the fixed request, sets `isLoading`, records it and requests the search while loading |
| Conversation.AppComponent.LocalSearchArrived | src/app.component.ts:103-112 | shows and records the search result, or shows the local-search apology; `isLoading` is cleared |
| Conversation.AppComponent.OnImageSelected | src/app.component.ts:68-82 | ignored while loading; otherwise shows the photo as a user question with its data URL and requests the analysis while loading |
| Conversation.AppComponent.ImageAnalysisArrived | src/app.component.ts:82-89 | shows the analysis or the image apology, leaves the transcript alone and clears `isLoading` |
| Conversation.AppComponent.DishImageArrived | src/app.component.ts:129-141 | a generated image is attached to the first message with the analysis text; a failure changes no message |

## Left out

- Persistence is not modelled: both services load from `localStorage`, recover from `JSON.parse` and save through an
  Angular `effect`. That is I/O and framework reactivity. The stores start empty.
- The network calls are not modelled: the Google GenAI client, its prompts and its system instructions. Each call is
  a `Request` value in a ghost log, and its outcome is a parameter of the continuation method.
- `Date.now()` is not modelled. Each operation takes one `now`, which serves as the id of every message it adds; ids
  are not unique.
- `JsStrings.Lower`: `toLowerCase` is modelled for ASCII capitals and Č, Ć, Đ, Š and Ž only. Other characters are kept
  as they are, with no full Unicode case mapping.
- `SearchHistory.SameSearch`: the `JSON.stringify` comparison of the filters is modelled as structural equality of
  a fixed record. `JSON.stringify` also depends on the order in which the properties were created, so equal filters
  built in a different order compare unequal in the source. Extra or missing properties also change the string, and
  the fixed record cannot hold either. `rating` is a `real`, so NaN and infinities, which `JSON.stringify` writes as
  `null`, are not modelled.
- Only the four regular expressions of `renderMarkdown` are modelled, not JavaScript regular expressions in general.
- src/components/image-upload/image-upload.component.ts is not part of this model: it is a `FileReader` read plus a
  `split(',')`. `OnImageSelected` takes the base64 string it emits.
- View code is not modelled: `scrollToBottom`, `ngAfterViewChecked`, `detectChanges`, input focus and `console.error`
  logging.
- Concurrency is modelled only at the `await` points. A continuation runs atomically, and a reply arrives only for
  the continuation that waits for it. The dish image may settle at any later point, but it is not interleaved
  inside another method.
- `Conversation.AppComponent.DishImageArrived`: the source sets `imageUrl` in place on the found message object and
  then copies the array. The model replaces that element in a new sequence, so object aliasing is not modelled.
- `GetHistory` and `GetFavorites` return the stored list as a value. The source returns the signal's array
  reference.
