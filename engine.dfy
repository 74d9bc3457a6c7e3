/** The dialogue engine: the loaded state graph, the per-chat position and
    attributes, and the handlers of incoming messages and button presses
    (internal/bot/bot.go and internal/bot/handlers.go). */
module BotEngine {
  import opened Types
  import opened Templates
  import opened Render
  import opened Callback
  import opened Store
  import opened Routing

  /** The reply to a failed store call. */
  const RequestError := "Ошибка обработки запроса. Попробуйте позже."

  /** The reply to a failed attribute write. */
  const SaveError := "Ошибка сохранения данных. Попробуйте позже."

  /** The state a chat starts in, and the one whose input is taken as the name. */
  const StartState := "start"

  /** The command that sends a chat back to the start state. */
  const StartCommandName := "start"

  /** The state entered once the name has been saved. */
  const NameState := "user_name"

  /** The attribute the name is saved under. */
  const NameKey := "Username"

  /** Which of the store calls of one message fail: GetOrCreateUser,
      SetUserState, GetUserState and SetUserData. */
  datatype StoreFaults = StoreFaults(user: bool, setState: bool, getState: bool, setData: bool)

  /** `order` lists every loaded state id once: the order in which one
      iteration over the state map visits them. */
  predicate Enumerates(order: seq<string>, states: map<string, State>) {
    && (forall i :: 0 <= i < |order| ==> order[i] in states)
    && (forall k :: k in states ==> k in order)
    && (forall i, j :: 0 <= i < j < |order| ==> order[i] != order[j])
  }

  /** The states in the order `order` visits them. */
  function Visiting(states: map<string, State>, order: seq<string>): (scan: seq<State>)
    requires forall i :: 0 <= i < |order| ==> order[i] in states
    ensures |scan| == |order|
  {
    seq(|order|, i requires 0 <= i < |order| => states[order[i]])
  }

  /** The persisted state of a chat; a chat without one is at "start". */
  function StoredState(stored: map<ChatId, string>, chat: ChatId): string {
    if chat in stored then stored[chat] else StartState
  }

  /** The persisted attributes of a chat; none for an unknown chat. */
  function StoredData(stored: map<ChatId, Attributes>, chat: ChatId): Attributes {
    if chat in stored then stored[chat] else []
  }

  /** The in-memory position after HandleState was asked for `id`: only a
      known state is recorded. */
  function Visit(userStates: map<ChatId, string>, states: map<string, State>, chat: ChatId, id: Option<string>): map<ChatId, string> {
    if id.Some? && id.value in states then userStates[chat := id.value] else userStates
  }

  /** What one event does: the directives sent, the state HandleState was
      asked for (if any), and the persisted states and attributes afterwards. */
  datatype Step = Step(out: seq<Directive>, visited: Option<string>,
                       storedStates: map<ChatId, string>, storedData: map<ChatId, Attributes>)

  /** A step that renders `id`. */
  function Show(states: map<string, State>, userData: map<ChatId, Attributes>, chat: ChatId, id: string,
                check: PremiumCheck, files: set<string>,
                ss: map<ChatId, string>, sd: map<ChatId, Attributes>): Step
  {
    Step(Rendered(states, userData, chat, id, check, files), Some(id), ss, sd)
  }

  /** handleMessage (internal/bot/bot.go:123-196) as a function of the stores:
      /start resets the persisted state, a quick-reply label navigates, text
      typed at "start" is saved as the name, and anything else re-renders the
      persisted state. `scan` is the order in which the states are visited. */
  function MessageStep(states: map<string, State>, userData: map<ChatId, Attributes>,
                       ss: map<ChatId, string>, sd: map<ChatId, Attributes>,
                       chat: ChatId, text: string, command: Option<string>, faults: StoreFaults,
                       scan: seq<State>, check: PremiumCheck, files: set<string>): (r: Step)
    ensures r.visited.Some? ==> r.out == Rendered(states, userData, chat, r.visited.value, check, files)
    ensures r.visited.None? ==> r.out == [Text(RequestError, None)] || r.out == [Text(SaveError, None)]
    ensures r.visited.None? ==> r.storedStates == ss
  {
    var failed := Step([Text(RequestError, None)], None, ss, sd);
    if faults.user then failed
    else if command == Some(StartCommandName) then
      if faults.setState then failed
      else Show(states, userData, chat, StartState, check, files, ss[chat := StartState], sd)
    else match FirstMatch(AllQuickReplies(scan), text)
      case Some(target) => Show(states, userData, chat, target, check, files, ss, sd)
      case None => TypedStep(states, userData, ss, sd, chat, text, faults, check, files)
  }

  /** Text that matches no label (internal/bot/bot.go:172-195): dispatched on
      the persisted state. */
  function TypedStep(states: map<string, State>, userData: map<ChatId, Attributes>,
                     ss: map<ChatId, string>, sd: map<ChatId, Attributes>,
                     chat: ChatId, text: string, faults: StoreFaults,
                     check: PremiumCheck, files: set<string>): (r: Step)
    ensures r.visited.Some? ==> r.out == Rendered(states, userData, chat, r.visited.value, check, files)
    ensures r.visited.None? ==> r.out == [Text(RequestError, None)] || r.out == [Text(SaveError, None)]
    ensures r.visited.None? ==> r.storedStates == ss
  {
    if faults.getState then Step([Text(RequestError, None)], None, ss, sd)
    else
      var current := StoredState(ss, chat);
      if current == StartState then
        if faults.setData then Step([Text(SaveError, None)], None, ss, sd)
        else
          var sd' := sd[chat := Upsert(StoredData(sd, chat), NameKey, text)];
          if faults.setState then Step([Text(RequestError, None)], None, ss, sd')
          else Show(states, userData, chat, NameState, check, files, ss[chat := NameState], sd')
      else Show(states, userData, chat, current, check, files, ss, sd)
  }

  /** HandleCallbackQuery (internal/bot/handlers.go:113-138): nothing is sent
      when the premium lookup fails, otherwise the resolved state is rendered. */
  function CallbackStep(states: map<string, State>, userData: map<ChatId, Attributes>,
                        ss: map<ChatId, string>, sd: map<ChatId, Attributes>,
                        chat: ChatId, data: string, scan: seq<State>, check: PremiumCheck, files: set<string>): (r: Step)
    ensures r.visited.Some? ==> r.out == Rendered(states, userData, chat, r.visited.value, check, files)
    ensures r.visited.None? ==> r.out == []
    ensures r.storedStates == ss && r.storedData == sd
  {
    match Resolve(scan, data, check)
      case CheckError => Step([], None, ss, sd)
      case Resolved(next) => Show(states, userData, chat, next, check, files, ss, sd)
  }

  // ---------------------------------------------------------------- properties of a message

  /** /start always goes to "start", whatever else holds: the persisted state
      becomes "start" and the start state is rendered; a failed write sends
      the request error and changes nothing. */
  lemma StartCommand(states: map<string, State>, userData: map<ChatId, Attributes>,
                     ss: map<ChatId, string>, sd: map<ChatId, Attributes>,
                     chat: ChatId, text: string, faults: StoreFaults,
                     scan: seq<State>, check: PremiumCheck, files: set<string>)
    requires !faults.user
    ensures var st := MessageStep(states, userData, ss, sd, chat, text, Some(StartCommandName), faults, scan, check, files);
      && st.storedData == sd
      && (faults.setState ==> st == Step([Text(RequestError, None)], None, ss, sd))
      && (!faults.setState ==>
            && st.storedStates == ss[chat := StartState]
            && st.visited == Some(StartState)
            && st.out == Rendered(states, userData, chat, StartState, check, files))
  {
  }

  /** A text that is the label of some state's quick reply navigates to the
      target of the first such label in visiting order, before the persisted
      state is even read: nothing is written to the store. */
  lemma StateLabelNavigates(states: map<string, State>, userData: map<ChatId, Attributes>,
                            ss: map<ChatId, string>, sd: map<ChatId, Attributes>,
                            chat: ChatId, text: string, command: Option<string>, faults: StoreFaults,
                            scan: seq<State>, check: PremiumCheck, files: set<string>, i: nat, q: QuickReply)
    requires !faults.user && command != Some(StartCommandName)
    requires i < |scan| && InRows(scan[i].quickReplies, q) && q.text == text
    ensures var st := MessageStep(states, userData, ss, sd, chat, text, command, faults, scan, check, files);
      && st.visited == FirstMatch(StateQuickReplies(scan), text)
      && st.visited.Some?
      && st.storedStates == ss && st.storedData == sd
      && st.out == Rendered(states, userData, chat, st.visited.value, check, files)
  {
    StateQuickRepliesMembership(scan, q);
    var replies := StateQuickReplies(scan);
    var k :| 0 <= k < |replies| && replies[k] == q;
    FirstMatchSpec(replies, text);
    StateLabelsFirst(scan, text);
  }

  /** One of the four built-in labels that no state uses as a label leads to
      its own fixed target, with no store write. */
  lemma BuiltinLabelNavigates(states: map<string, State>, userData: map<ChatId, Attributes>,
                              ss: map<ChatId, string>, sd: map<ChatId, Attributes>,
                              chat: ChatId, command: Option<string>, faults: StoreFaults,
                              scan: seq<State>, check: PremiumCheck, files: set<string>, b: nat)
    requires !faults.user && command != Some(StartCommandName)
    requires b < |BuiltinQuickReplies|
    requires forall q :: q in StateQuickReplies(scan) ==> q.text != BuiltinQuickReplies[b].text
    ensures var text := BuiltinQuickReplies[b].text;
      var st := MessageStep(states, userData, ss, sd, chat, text, command, faults, scan, check, files);
      && st.visited == Some(BuiltinQuickReplies[b].nextState)
      && st.storedStates == ss && st.storedData == sd
      && st.out == Rendered(states, userData, chat, BuiltinQuickReplies[b].nextState, check, files)
  {
    var text := BuiltinQuickReplies[b].text;
    var replies := StateQuickReplies(scan);
    FirstMatchSpec(replies, text);
    StateLabelsFirst(scan, text);
    FirstMatchSpec(BuiltinQuickReplies, text);
  }

  /** Text that matches no label, typed while the persisted state is "start"
      (or missing), is saved as the name: it reads back under "Username",
      the chat's other attributes and every other chat are untouched, the
      persisted state becomes "user_name" and that state is rendered. */
  lemma NameCaptured(states: map<string, State>, userData: map<ChatId, Attributes>,
                     ss: map<ChatId, string>, sd: map<ChatId, Attributes>,
                     chat: ChatId, text: string, command: Option<string>,
                     scan: seq<State>, check: PremiumCheck, files: set<string>, key: string)
    requires command != Some(StartCommandName)
    requires FirstMatch(AllQuickReplies(scan), text).None?
    requires StoredState(ss, chat) == StartState
    requires DistinctKeys(StoredData(sd, chat))
    ensures var st := MessageStep(states, userData, ss, sd, chat, text, command, StoreFaults(false, false, false, false), scan, check, files);
      && chat in st.storedData
      && Lookup(st.storedData[chat], NameKey) == Some(text)
      && (key != NameKey ==> Lookup(st.storedData[chat], key) == Lookup(StoredData(sd, chat), key))
      && Keys(st.storedData[chat]) == Keys(StoredData(sd, chat)) + {NameKey}
      && DistinctKeys(st.storedData[chat])
      && (forall c :: c != chat ==> (c in st.storedData <==> c in sd) && (c in sd ==> st.storedData[c] == sd[c]))
      && st.storedStates == ss[chat := NameState]
      && st.visited == Some(NameState)
      && st.out == Rendered(states, userData, chat, NameState, check, files)
  {
    UpsertCorrect(StoredData(sd, chat), NameKey, text, key);
  }

  /** When the name is saved but the state write then fails, the attribute
      stays written while the persisted state does not move. */
  lemma NameSavedStateLost(states: map<string, State>, userData: map<ChatId, Attributes>,
                           ss: map<ChatId, string>, sd: map<ChatId, Attributes>,
                           chat: ChatId, text: string, command: Option<string>,
                           scan: seq<State>, check: PremiumCheck, files: set<string>)
    requires command != Some(StartCommandName)
    requires FirstMatch(AllQuickReplies(scan), text).None?
    requires StoredState(ss, chat) == StartState
    requires DistinctKeys(StoredData(sd, chat))
    ensures var st := MessageStep(states, userData, ss, sd, chat, text, command, StoreFaults(false, true, false, false), scan, check, files);
      && st.out == [Text(RequestError, None)]
      && st.visited == None
      && st.storedStates == ss
      && chat in st.storedData && Lookup(st.storedData[chat], NameKey) == Some(text)
  {
    UpsertCorrect(StoredData(sd, chat), NameKey, text, NameKey);
  }

  /** Outside "start", unmatched text re-renders the persisted state and
      writes nothing. */
  lemma UnmatchedTextReRenders(states: map<string, State>, userData: map<ChatId, Attributes>,
                               ss: map<ChatId, string>, sd: map<ChatId, Attributes>,
                               chat: ChatId, text: string, command: Option<string>, faults: StoreFaults,
                               scan: seq<State>, check: PremiumCheck, files: set<string>)
    requires !faults.user && !faults.getState && command != Some(StartCommandName)
    requires forall q :: q in AllQuickReplies(scan) ==> q.text != text
    requires StoredState(ss, chat) != StartState
    ensures var st := MessageStep(states, userData, ss, sd, chat, text, command, faults, scan, check, files);
      st == Show(states, userData, chat, StoredState(ss, chat), check, files, ss, sd)
  {
    FirstMatchSpec(AllQuickReplies(scan), text);
  }

  /** The persisted state moves only to "start" or "user_name", and only when
      that state is then rendered; a failed user lookup answers with the
      request error and changes nothing. */
  lemma PersistedStateMoves(states: map<string, State>, userData: map<ChatId, Attributes>,
                            ss: map<ChatId, string>, sd: map<ChatId, Attributes>,
                            chat: ChatId, text: string, command: Option<string>, faults: StoreFaults,
                            scan: seq<State>, check: PremiumCheck, files: set<string>)
    ensures var st := MessageStep(states, userData, ss, sd, chat, text, command, faults, scan, check, files);
      && (faults.user ==> st == Step([Text(RequestError, None)], None, ss, sd))
      && (st.storedStates == ss || (st.storedStates == ss[chat := st.visited.value] && st.visited.value in {StartState, NameState}))
      && (st.storedData != sd ==> StoredState(ss, chat) == StartState && !faults.setData)
  {
    if !faults.user && command != Some(StartCommandName) {
      match FirstMatch(AllQuickReplies(scan), text)
      case Some(target) =>
      case None =>
        if !faults.getState && StoredState(ss, chat) == StartState && !faults.setData {
          assert faults.setState ==> MessageStep(states, userData, ss, sd, chat, text, command, faults, scan, check, files).storedStates == ss;
        }
    }
  }

  // ---------------------------------------------------------------- properties of a button press

  /** A premium user always lands on the pressed button's payload. */
  lemma PremiumPressFollowsPayload(states: map<string, State>, userData: map<ChatId, Attributes>,
                                   ss: map<ChatId, string>, sd: map<ChatId, Attributes>,
                                   chat: ChatId, data: string, scan: seq<State>, files: set<string>)
    ensures CallbackStep(states, userData, ss, sd, chat, data, scan, Premium(true), files)
      == Show(states, userData, chat, data, Premium(true), files, ss, sd)
  {
    ResolvePremium(scan, data);
  }

  /** With a failed lookup nothing is sent exactly when a premium button
      targets the payload; otherwise the payload is rendered. */
  lemma FailedCheckPress(states: map<string, State>, userData: map<ChatId, Attributes>,
                         ss: map<ChatId, string>, sd: map<ChatId, Attributes>,
                         chat: ChatId, data: string, scan: seq<State>, files: set<string>)
    ensures var st := CallbackStep(states, userData, ss, sd, chat, data, scan, CheckFailed, files);
      && (st.visited == None <==> PremiumTargeted(scan, data))
      && (st.visited == None ==> st.out == [])
      && (st.visited != None ==> st.visited == Some(data) && st.out == Rendered(states, userData, chat, data, CheckFailed, files))
      && st.storedStates == ss && st.storedData == sd
  {
    ResolveCheckFailed(scan, data);
  }

  /** A non-premium user lands on the payload or on the fallback of some
      premium button. */
  lemma FreePressFollowsFallback(states: map<string, State>, userData: map<ChatId, Attributes>,
                                 ss: map<ChatId, string>, sd: map<ChatId, Attributes>,
                                 chat: ChatId, data: string, scan: seq<State>, files: set<string>)
    ensures var st := CallbackStep(states, userData, ss, sd, chat, data, scan, Premium(false), files);
      && st.visited.Some?
      && (st.visited.value == data || IsFallback(scan, st.visited.value))
      && st.out == Rendered(states, userData, chat, st.visited.value, Premium(false), files)
      && st.storedStates == ss && st.storedData == sd
  {
    ResolveNotPremium(scan, data);
  }

  // ---------------------------------------------------------------- properties of a render

  /** A state whose texts contain no "{{" is sent with its texts as written,
      whatever attributes the chat has; with images, part 0's text is the
      photos' caption instead of a message. */
  lemma RenderPlainTexts(states: map<string, State>, userData: map<ChatId, Attributes>, chat: ChatId,
                         id: string, check: PremiumCheck, files: set<string>)
    requires id in states
    requires forall i :: 0 <= i < |states[id].message| ==> !Occurs(states[id].message[i].text, "{{")
    ensures var s := states[id];
      var raw := seq(|s.message|, i requires 0 <= i < |s.message| => s.message[i].text);
      Project(Rendered(states, userData, chat, id, check, files), TextOf) ==
        if |s.message| > 0 && |s.images| > 0 then raw[1..] else raw
  {
    var s := states[id];
    var texts := Expanded(s, userData, chat);
    var raw := seq(|s.message|, i requires 0 <= i < |s.message| => s.message[i].text);
    forall i | 0 <= i < |s.message| ensures texts[i] == raw[i] {
      if chat in userData {
        ExpandWithoutBraces(s.message[i].text, userData[chat]);
      }
    }
    assert texts == raw;
    EmittedTexts(s, |s.message|, texts, KeyboardFor(s.buttons, check), files);
  }

  /** A state with at least two parts, or one part and no images, ends with
      its last expanded text carrying the inline keyboard (when it has a row). */
  lemma RenderEndsWithKeyboard(states: map<string, State>, userData: map<ChatId, Attributes>, chat: ChatId,
                               id: string, check: PremiumCheck, files: set<string>)
    requires id in states
    requires var s := states[id]; |s.message| > 1 || (|s.message| == 1 && |s.images| == 0)
    ensures var s := states[id]; var out := Rendered(states, userData, chat, id, check, files);
      && |out| > 0
      && out[|out| - 1] == Text(ExpandFor(s.message[|s.message| - 1].text, userData, chat),
                                Markup(KeyboardFor(s.buttons, check)))
  {
    var s := states[id];
    LastDirective(s, Expanded(s, userData, chat), KeyboardFor(s.buttons, check), files);
  }

  // ---------------------------------------------------------------- the bot

  /** The bot: the loaded state graph, the in-memory position and attributes
      of each chat that HandleState and replaceTemplates use, and the
      persisted position and attributes that handleMessage reads and writes. */
  class Bot {
    var states: map<string, State>
    var userStates: map<ChatId, string>
    var userData: map<ChatId, Attributes>
    var storedStates: map<ChatId, string>
    var storedData: map<ChatId, Attributes>

    /** NewBot: no states loaded and empty in-memory maps; the database it is
        given keeps the positions and attributes it already holds. */
    constructor (ss: map<ChatId, string>, sd: map<ChatId, Attributes>)
      ensures states == map[] && userStates == map[] && userData == map[]
      ensures storedStates == ss && storedData == sd
    {
      states := map[];
      userStates := map[];
      userData := map[];
      storedStates := ss;
      storedData := sd;
    }

    /** LoadStates: clears the graph, then merges the files in order; the
        first unreadable file stops the load and leaves the files before it
        merged. */
    method LoadStates(files: seq<StateFile>) returns (ok: bool)
      modifies this`states
      ensures ok <==> FirstFailure(files) == |files|
      ensures states == Merge(files[..FirstFailure(files)])
    {
      states := map[];
      var i := 0;
      while i < |files|
        invariant 0 <= i <= FirstFailure(files)
        invariant states == Merge(files[..i])
      {
        assert files[..i + 1][..i] == files[..i];
        match files[i]
        case Unreadable =>
          return false;
        case Parsed(m) =>
          ghost var before := states;
          var keys := m.Keys;
          while keys != {}
            invariant keys <= m.Keys
            invariant states == before + map k | k in m.Keys - keys :: m[k]
            decreases keys
          {
            var k :| k in keys;
            states := states[k := m[k]];
            keys := keys - {k};
          }
          assert states == before + m;
          i := i + 1;
      }
      assert files[..i] == files;
      return true;
    }

    /** GetState: the state stored under `key`, or the empty state. */
    method GetState(key: string) returns (s: State, found: bool)
      ensures found <==> key in states
      ensures found ==> s == states[key]
      ensures !found ==> s == EmptyState
    {
      if key in states {
        return states[key], true;
      }
      return EmptyState, false;
    }

    /** HandleState: an unknown id gets the notice; a known one becomes the
        chat's in-memory position and is rendered. */
    method HandleState(chat: ChatId, id: string, check: PremiumCheck, files: set<string>) returns (out: seq<Directive>)
      modifies this`userStates
      ensures out == Rendered(states, userData, chat, id, check, files)
      ensures userStates == Visit(old(userStates), states, chat, Some(id))
    {
      var s, found := GetState(id);
      if !found {
        return [Text(UnknownStateNotice, None)];
      }
      userStates := userStates[chat := id];
      var kb := BuildKeyboard(s.buttons, check);
      out := EmitParts(s, kb, userData, chat, files);
    }

    /** HandleCallbackQuery: resolves the payload against every state's
        buttons, in the visiting order `order`, then renders the result. */
    method HandleCallbackQuery(chat: ChatId, data: string, order: seq<string>, check: PremiumCheck, files: set<string>)
      returns (out: seq<Directive>)
      requires Enumerates(order, states)
      modifies this`userStates
      ensures var st := CallbackStep(states, userData, storedStates, storedData, chat, data, Visiting(states, order), check, files);
        out == st.out && userStates == Visit(old(userStates), states, chat, st.visited)
    {
      var scan := Visiting(states, order);
      var r := ResolveCallback(scan, data, check);
      if r.CheckError? {
        return [];
      }
      out := HandleState(chat, r.next, check, files);
    }

    /** handleMessage, with the outcome of each store call given by `faults`. */
    method HandleMessage(chat: ChatId, text: string, command: Option<string>, faults: StoreFaults,
                         order: seq<string>, check: PremiumCheck, files: set<string>)
      returns (out: seq<Directive>)
      requires Enumerates(order, states)
      modifies this`userStates, this`storedStates, this`storedData
      ensures var st := MessageStep(states, userData, old(storedStates), old(storedData), chat, text, command,
                                    faults, Visiting(states, order), check, files);
        && out == st.out
        && storedStates == st.storedStates
        && storedData == st.storedData
        && userStates == Visit(old(userStates), states, chat, st.visited)
    {
      if faults.user {
        return [Text(RequestError, None)];
      }
      if command == Some(StartCommandName) {
        if faults.setState {
          return [Text(RequestError, None)];
        }
        storedStates := storedStates[chat := StartState];
        out := HandleState(chat, StartState, check, files);
        return;
      }
      var replies := CollectQuickReplies(Visiting(states, order));
      var target := FindQuickReply(replies, text);
      if target.Some? {
        out := HandleState(chat, target.value, check, files);
        return;
      }
      out := HandleTyped(chat, text, faults, check, files);
    }

    /** The part of handleMessage after no label matched. */
    method HandleTyped(chat: ChatId, text: string, faults: StoreFaults, check: PremiumCheck, files: set<string>)
      returns (out: seq<Directive>)
      modifies this`userStates, this`storedStates, this`storedData
      ensures var st := TypedStep(states, userData, old(storedStates), old(storedData), chat, text, faults, check, files);
        && out == st.out
        && storedStates == st.storedStates
        && storedData == st.storedData
        && userStates == Visit(old(userStates), states, chat, st.visited)
    {
      if faults.getState {
        return [Text(RequestError, None)];
      }
      var current := if chat in storedStates then storedStates[chat] else StartState;
      if current == StartState {
        if faults.setData {
          return [Text(SaveError, None)];
        }
        var attrs := if chat in storedData then storedData[chat] else [];
        storedData := storedData[chat := Upsert(attrs, NameKey, text)];
        if faults.setState {
          return [Text(RequestError, None)];
        }
        storedStates := storedStates[chat := NameState];
        out := HandleState(chat, NameState, check, files);
      } else {
        out := HandleState(chat, current, check, files);
      }
    }
  }
}
