# EmotionalCompass dialogue engine in Dafny

EmotionalCompass is a Telegram bot that walks a user through a scripted
dialogue graph. Each node ("state") is loaded from JSON state files. A state
holds message parts with pauses between them, inline buttons (some need a
premium subscription and fall back to another state otherwise), images and
quick-reply labels. This project models the engine of that bot:

- loading and merging the state files (`Store`, `BotEngine.Bot.LoadStates`);
- rendering a state into an ordered list of outbound directives: pauses,
  captioned photos and texts, with the premium-gated inline keyboard on the
  last part (`Render`, `BotEngine.Bot.HandleState`);
- `{{key}}` placeholder expansion from a chat's attributes (`Templates`);
- routing of an inline-button press through the premium check (`Callback`,
  `BotEngine.Bot.HandleCallbackQuery`);
- routing of a text message: `/start`, quick-reply labels, name capture and
  re-rendering of the persisted state (`Routing`, `BotEngine.MessageStep`,
  `BotEngine.Bot.HandleMessage`);
- the ten-word summary `ExtractKeyPoints` (`KeyPoints`).

Telegram calls become values of `Types.Directive`: `Delay(seconds)`,
`Photo(path, caption, markup)` and `Text(text, markup)`. The outside world
enters as parameters. The premium lookup is a `PremiumCheck`. The outcome of
each database call is a `StoreFaults` flag. The set of image paths that exist
on disk is `files`. The order in which Go iterates a map is an explicit
sequence `order` that lists every state id once.

The repository keeps two stores per chat, and the model keeps both apart.
`userStates` and `userData` are the in-memory maps of handlers.go.
`HandleState` writes `userStates`, and `replaceTemplates` reads `userData`.
`storedStates` and `storedData` are the database tables that `handleMessage`
reads and writes. Nothing in the core writes the in-memory `userData`. So the
name saved by `handleMessage` goes to the database and is not what
`replaceTemplates` substitutes. The model keeps that behaviour as it is.

Behaviour of the code that the model keeps as written:
- A failed load leaves the files before the failure merged. The state map was
  cleared first, so it is not restored (bot.go:76-93).
- A premium button is not relabelled for a non-premium user. Only its target
  changes (handlers.go:59-62).
- Rendering sends no audio and no trailing quick-reply prompt.
- Name capture happens only in state "start".
- A button press whose premium lookup fails renders nothing
  (handlers.go:121-125).
- The loop in `HandleCallbackQuery` leaves only the inner loop on a match.
  So scanning goes on with the fallback as the new target, and the result
  depends on the map's iteration order (`Callback.ResolveDependsOnOrder`).

## Model

| member | source | states |
|---|---|---|
| Templates.ReplaceTemplates | internal/bot/handlers.go:141-153 | the result is the left fold of one ReplaceAll per attribute of the chat, in order; a chat without attributes, or a text without "{{", comes back unchanged |
| Templates.ReplaceAllAbsent | internal/bot/handlers.go:147-150 | ReplaceAll leaves a text that does not contain the pattern unchanged |
| Templates.ReplaceAllSelf | internal/bot/handlers.go:147-150 | replacing a placeholder by itself changes nothing |
| Templates.ExpandWithoutBraces | internal/bot/handlers.go:141-153 | a text without "{{" is unchanged by the expansion, for any attribute list |
| Templates.ExpandIdentityAttributes | internal/bot/handlers.go:147-150 | attributes whose values are their own placeholders leave every text unchanged |
| Templates.UpsertCorrect | internal/database/db.go:96-105 | after the upsert, the key reads back the new value, every other key keeps its value, the key set grows by exactly that key, and keys stay distinct |
| Render.Rendered | internal/bot/handlers.go:36-110 | an unknown state gives only the unknown-state notice; a known state sends its expanded texts in order, part 0's only as photo captions when it has images, and photos for exactly its images that exist on disk |
| Render.BuildKeyboard | internal/bot/handlers.go:47-69 | the keyboard loop yields exactly KeyboardFor(buttons, check) |
| Render.KeyboardWhenChecked | internal/bot/handlers.go:49-67 | with an answered premium check, there is one row per button in button order, with its label; a premium button targets its fallback for a non-premium user; a premium user gets every button's own target |
| Render.KeyboardWhenCheckFails | internal/bot/handlers.go:51-57 | when the premium lookup fails, the keyboard is exactly the free buttons, in order, each with its own target |
| Render.FreeButtonsMembership | internal/bot/handlers.go:51-57 | a button survives a failed lookup if and only if it does not require premium |
| Render.SendPhotos | internal/bot/handlers.go:87-100 | the photo loop emits, per image that exists on disk and in order, a photo with the caption and markup and then the 300 ms gap |
| Render.PhotosForViews | internal/bot/handlers.go:87-100 | the photo directives carry no text, their paths are exactly the existing images, their delays are one gap per photo, and each photo carries the caption and markup |
| Render.EmitParts | internal/bot/handlers.go:72-109 | the message-part loop emits exactly Emitted over all parts with the expanded texts |
| Render.EmittedTexts | internal/bot/handlers.go:72-108 | the texts sent are the expanded part texts in order; with images, part 0's text becomes the photo caption and is not sent as a message |
| Render.EmittedPhotos | internal/bot/handlers.go:86-100 | photos are sent only for part 0 of a state with images, exactly for the existing images, each captioned with part 0's text |
| Render.EmittedDelays | internal/bot/handlers.go:72-99 | the pauses are the photo gaps, then each positive sleep of the parts before the last, in order; sleeps of zero or less are skipped |
| Render.EmittedMarkup | internal/bot/handlers.go:80-84 | no directive before the last part carries markup; every message of the last part carries the keyboard if and only if it has a row |
| Render.LastDirective | internal/bot/handlers.go:80-108 | unless the only part is sent as photos, the last directive is the last part's text with the keyboard markup |
| Render.EmittedPrefix | internal/bot/handlers.go:72-109 | emitting more parts only extends the output |
| Render.PauseBeforePart | internal/bot/handlers.go:73-76 | part 0 has no pause before it; part i > 0 starts with a pause of the previous part's sleep if and only if that sleep is positive, and otherwise starts with its text |
| Callback.ResolveCallback | internal/bot/handlers.go:117-134 | the nested loops compute Resolve over the states in visiting order, including the early return on a failed lookup |
| Callback.ScanButtonsCases | internal/bot/handlers.go:119-132 | one state's scan keeps the target when no premium button leads there or the user is premium; it fails if and only if such a button exists and the lookup fails; otherwise it yields the fallback of the first such button in button order |
| Callback.ResolvePremium | internal/bot/handlers.go:118-134 | a premium user always gets the pressed payload |
| Callback.ResolveUntargeted | internal/bot/handlers.go:118-134 | a payload that no premium button targets is rendered as it is |
| Callback.ResolveCheckFailed | internal/bot/handlers.go:120-125 | when the lookup fails, the press fails if and only if some premium button targets the payload, and otherwise resolves to the payload |
| Callback.ResolveNotPremium | internal/bot/handlers.go:127-131 | a non-premium user gets the payload or the fallback of some premium button |
| Callback.ResolveDependsOnOrder | internal/bot/handlers.go:118-134 | two states whose fallbacks chain resolve differently in the two visiting orders |
| Callback.ResolveErrorSticks | internal/bot/handlers.go:121-124 | once the lookup has failed, later states do not change the outcome |
| Store.FirstFailure | internal/bot/bot.go:79-93 | the index of the first unreadable file: every file before it parsed |
| Store.MergeKeys | internal/bot/bot.go:79-98 | a state is present after the merge if and only if some file defines it |
| Store.MergeLastWriter | internal/bot/bot.go:95-98 | the merged definition is that of the last file that defines the state |
| Store.SecondFileWins | internal/bot/bot.go:95-98 | of two files defining the same state, the second wins |
| Routing.CollectQuickReplies | internal/bot/bot.go:148-162 | the gathering loops yield every state's quick replies row by row, in visiting order, then the four built-in labels |
| Routing.FindQuickReply | internal/bot/bot.go:164-170 | the scan returns FirstMatch of the text |
| Routing.FirstMatchSpec | internal/bot/bot.go:164-170 | there is no match if and only if no label equals the text; a match is the target of the first reply with that label |
| Routing.FirstMatchAppend | internal/bot/bot.go:157-170 | a match among the earlier replies hides any later one |
| Routing.StateLabelsFirst | internal/bot/bot.go:148-170 | a state's label is matched before the built-in labels; the built-in ones decide only when no state label matches |
| Routing.RowButtonsMembership | internal/bot/bot.go:151-153 | a reply is collected from rows if and only if some row holds it |
| Routing.StateRowsMembership | internal/bot/bot.go:150-154 | a reply is collected if and only if some state's rows yield it |
| Routing.StateQuickRepliesMembership | internal/bot/bot.go:149-154 | the collected replies are exactly the buttons of some row of some state, not only those of the user's current state |
| KeyPoints.Fields | internal/bot/parser.go:9 | every field is non-empty and free of white space |
| KeyPoints.FieldsRebuild | internal/bot/parser.go:9 | the text is exactly its fields interleaved with runs of white space, with at least one white-space character between consecutive fields |
| KeyPoints.ExtractKeyPoints | internal/bot/parser.go:7-14 | a text of at most ten words comes back unchanged; a longer one becomes exactly ten words and ends in "..." |
| KeyPoints.FieldsOfJoin | internal/bot/parser.go:9-11 | splitting words joined by single spaces gives the words back |
| KeyPoints.FieldsOfJoinSuffix | internal/bot/parser.go:10-11 | splitting words joined by spaces plus a space-free suffix gives the words, with the suffix glued to the last one |
| KeyPoints.KeyPointsSpec | internal/bot/parser.go:7-14 | a text of at most ten words is returned unchanged; a longer one becomes ten words, the first nine of the text and its tenth with "..." attached, and it ends in "..." |
| KeyPoints.KeyPointsIdempotent | internal/bot/parser.go:7-14 | shortening a shortened text changes nothing |
| BotEngine.MessageStep | internal/bot/bot.go:123-196 | whenever a state is visited, the output is exactly that state's rendering; otherwise the output is the request error or the save error alone and the persisted state does not move |
| BotEngine.TypedStep | internal/bot/bot.go:172-195 | whenever a state is visited, the output is exactly that state's rendering; otherwise the output is the request error or the save error alone and the persisted state does not move |
| BotEngine.CallbackStep | internal/bot/handlers.go:113-138 | a press never writes the store; it sends nothing when no state is visited and exactly the visited state's rendering otherwise |
| BotEngine.StartCommand | internal/bot/bot.go:134-142 | /start sets the persisted state to "start" and renders it, whatever the text; a failed write sends the request error and changes nothing |
| BotEngine.StateLabelNavigates | internal/bot/bot.go:144-170 | a text equal to some state's quick-reply label renders the first such label's target in visiting order, before the persisted state is read, and writes nothing |
| BotEngine.BuiltinLabelNavigates | internal/bot/bot.go:156-170 | a built-in label that no state uses renders its fixed target and writes nothing |
| BotEngine.NameCaptured | internal/bot/bot.go:180-191 | unmatched text at "start" is saved under "Username", other attributes and other chats are untouched, the persisted state becomes "user_name", and the output is the rendering of "user_name" |
| BotEngine.NameSavedStateLost | internal/bot/bot.go:183-190 | if the state write fails after the name is saved, the name stays saved, the persisted state stays, and the request error is sent |
| BotEngine.UnmatchedTextReRenders | internal/bot/bot.go:192-195 | outside "start", unmatched text re-renders the persisted state and writes nothing |
| BotEngine.PersistedStateMoves | internal/bot/bot.go:127-195 | a failed user lookup sends the request error and changes nothing; the persisted state moves only to "start" or "user_name", and only to the state then rendered; attributes change only when the name is captured |
| BotEngine.PremiumPressFollowsPayload | internal/bot/handlers.go:113-137 | a premium user's press renders the payload |
| BotEngine.FailedCheckPress | internal/bot/handlers.go:118-137 | when the lookup fails, nothing is rendered if and only if a premium button targets the payload; otherwise the output is the payload's rendering; the store is not written |
| BotEngine.FreePressFollowsFallback | internal/bot/handlers.go:118-137 | a non-premium user's press outputs the rendering of the payload or of the fallback of some premium button, and writes nothing |
| BotEngine.RenderPlainTexts | internal/bot/handlers.go:72-109 | a state whose texts contain no "{{" is sent with its texts as written, for any chat attributes |
| BotEngine.RenderEndsWithKeyboard | internal/bot/handlers.go:80-108 | a state whose last message is text ends with its last expanded text, carrying the keyboard markup |
| BotEngine.Bot.constructor | internal/bot/bot.go:50-56 | a new bot has no states loaded and empty in-memory positions and attributes, and keeps the persisted positions and attributes of the database it is given |
| BotEngine.Bot.LoadStates | internal/bot/bot.go:71-102 | the graph is cleared, then the files are merged up to the first unreadable one; success if and only if every file was read |
| BotEngine.Bot.GetState | internal/bot/bot.go:104-110 | returns the state under the key and found, or the empty state and not found |
| BotEngine.Bot.HandleState | internal/bot/handlers.go:36-110 | sends the unknown-state notice for an unknown id; otherwise records the id as the chat's in-memory position and sends the rendering of the state |
| BotEngine.Bot.HandleCallbackQuery | internal/bot/handlers.go:113-138 | the output and the new position are CallbackStep's, over the states in the given visiting order |
| BotEngine.Bot.HandleMessage | internal/bot/bot.go:123-196 | the output, the persisted states and attributes, and the in-memory position are MessageStep's; the state graph and the in-memory attributes do not change |
| BotEngine.Bot.HandleTyped | internal/bot/bot.go:172-195 | the output, the persisted states and attributes, and the in-memory position are TypedStep's: the request error on a failed read; at "start" the name is saved, then the state moves to "user_name", with the save error or request error when a write fails; elsewhere the persisted state is re-rendered |

## Left out

- Telegram transport: the update loop `Start`, message sending and the errors it reports, HTML parse mode. Output is a list of directives instead.
- Callback acknowledgements (`AnswerCallbackQuery`, with or without an alert text) are left out. They answer the callback, not the chat. The client in pkg/telegram takes a single argument, while handlers.go passes two.
- Audio: the `audio` field is decoded but never sent by the code.
- `time.Sleep` is a `Delay` directive with the sleep in seconds as a real number. The conversion of a float64 to a `time.Duration` is not modelled. Only the test `sleep > 0` matters.
- The premium lookup (`isUserPremium`) is one answer per event. The code queries once per premium button, so a database that changes mid-event could give different answers. A missing user counts as non-premium inside that answer.
- The database: `GetOrCreateUser` is only a fault flag, and the users table it creates is not modelled. The other store calls are maps that are read and upserted, or fault flags. SQL and connection handling are left out.
- `os.Stat` is the set `files` of existing paths. A photo send error is ignored, as in the code.
- `filepath.Abs`, file reading and JSON decoding are folded into `StateFile.Unreadable`. The JSON format itself is not modelled.
- Logging (`fmt.Println` and `log.Printf` in handlers.go) is left out. It has no effect on the chat or the stores.
- Locking (`statesMu`) and concurrency are left out. Each event runs to completion.
- Go map iteration order is the parameter `order`. Attribute iteration order is the order of the attribute sequence.
- Config loading, `main`, the Stripe and logger packages, `LoadConfig`, `SaveMessage`/`GetMessages` and `UpdateUserPremium` are not part of this model.
- The sources refer to package-level `GetState`, `states`, `userStates` and `userData`, and to methods `b.HandleState` and `SendHTMLMessage`, that are not defined as called. The model joins them into one `Bot` holding one state graph.
- KeyPoints works on Unicode code points. Go's `strings.Fields` works on UTF-8 bytes, and invalid byte sequences are not modelled.
