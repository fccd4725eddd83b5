/**
 * The `ConversationHandler` of `main`, written as data, and the rules by which
 * the library picks the callback for a text message:
 *  - with no conversation in progress only the entry points are tried
 *    (re-entry is not allowed, the library's default);
 *  - otherwise the handlers of the current state are tried in order and the
 *    first whose filter accepts the message wins; if none does, the fallbacks
 *    are tried in order;
 *  - if nothing accepts the message, no callback runs.
 */
module Dispatch {
  import opened Wrappers
  import Text
  import Catalog
  import Measurement

  /** `CHOOSING_CATEGORY, CHOOSING_EXERCISE, DOING_EXERCISE, ADDING_EXERCISE = range(4)` */
  datatype State = ChoosingCategory | ChoosingExercise | DoingExercise | AddingExercise

  /** The conversation of one user: none in progress (never started, or ended), or in a state. */
  datatype Conversation = Idle | Active(state: State)

  /** The callbacks the table names. */
  datatype Callback =
    | OnStart | OnChoosingCategory | OnChoosingExercise | OnAddingExercise
    | OnLoggingExercise | OnDoneExercise | OnQuit

  /** The message filters the table combines. */
  datatype Filter =
    | AnyText                       // filters.TEXT
    | BotCommand                    // filters.COMMAND
    | TextIn(options: seq<string>)  // filters.Text([...])
    | Line(line: string)            // filters.Regex("^line$") for a literal line
    | WeightTimesReps               // filters.Regex("^(\d+([.,]?\d*)?)\s*x\s*(\d+)$")
    | And(left: Filter, right: Filter)
    | Or(left: Filter, right: Filter)
    | Not(operand: Filter)

  datatype Handler =
    | Command(command: string, callback: Callback)  // CommandHandler(command, callback)
    | Message(filter: Filter, callback: Callback)   // MessageHandler(filter, callback)

  datatype Table = Table(entryPoints: seq<Handler>, states: map<State, seq<Handler>>, fallbacks: seq<Handler>)

  predicate IsCommandChar(c: char) {
    'a' <= c <= 'z' || 'A' <= c <= 'Z' || '0' <= c <= '9' || c == '_'
  }

  /** A message that opens with a bot command: `/` followed by a command character. */
  predicate IsBotCommand(text: string) {
    |text| >= 2 && text[0] == '/' && IsCommandChar(text[1])
  }

  /** The command characters at the start of `s`. */
  function CommandName(s: string): (name: string)
    ensures name <= s
    ensures forall i :: 0 <= i < |name| ==> IsCommandChar(name[i])
    ensures |name| == |s| || !IsCommandChar(s[|name|])
  {
    if s != [] && IsCommandChar(s[0]) then [s[0]] + CommandName(s[1..]) else []
  }

  /** `CommandHandler(command)` accepts a message whose leading command, lower-cased, is `command`. */
  predicate CommandMatches(command: string, text: string) {
    && IsBotCommand(text)
    && var name := CommandName(text[1..]);
    && Text.ToLower(name) == command
    && (|name| + 1 == |text| || text[|name| + 1] != '@')
  }

  /** `^line$`: Python's `$` also matches just before a final newline. */
  predicate LineMatches(line: string, text: string) {
    text == line || text == line + "\n"
  }

  predicate Matches(f: Filter, text: string) {
    match f
    case AnyText => true
    case BotCommand => IsBotCommand(text)
    case TextIn(options) => text in options
    case Line(line) => LineMatches(line, text)
    case WeightTimesReps => Measurement.Parse(text).Some?
    case And(l, r) => Matches(l, text) && Matches(r, text)
    case Or(l, r) => Matches(l, text) || Matches(r, text)
    case Not(g) => !Matches(g, text)
  }

  predicate HandlerMatches(h: Handler, text: string) {
    match h
    case Command(command, _) => CommandMatches(command, text)
    case Message(f, _) => Matches(f, text)
  }

  /** The position of the first handler that accepts the message, if any. */
  function FirstMatch(hs: seq<Handler>, text: string): (r: Option<nat>)
    ensures r.None? <==> forall i :: 0 <= i < |hs| ==> !HandlerMatches(hs[i], text)
    ensures r.Some? ==> r.value < |hs| && HandlerMatches(hs[r.value], text)
    ensures r.Some? ==> forall j :: 0 <= j < r.value ==> !HandlerMatches(hs[j], text)
  {
    if hs == [] then None
    else if HandlerMatches(hs[0], text) then Some(0)
    else match FirstMatch(hs[1..], text)
      case None => None
      case Some(i) => Some(i + 1)
  }

  /** The callback of the first handler in `hs` that accepts the message. */
  function FirstCallback(hs: seq<Handler>, text: string): Option<Callback>
  {
    match FirstMatch(hs, text)
    case None => None
    case Some(i) => Some(hs[i].callback)
  }

  /** The handlers the conversation handler may try for a message, in the order it tries them. */
  function Candidates(table: Table, conversation: Conversation): seq<Handler>
  {
    match conversation
    case Idle => table.entryPoints
    case Active(s) => (if s in table.states then table.states[s] else []) + table.fallbacks
  }

  /** Looking through `a + b` finds the first match in `a`, or else the first match in `b`. */
  lemma FirstCallbackConcat(a: seq<Handler>, b: seq<Handler>, text: string)
    ensures FirstCallback(a + b, text) == if FirstCallback(a, text).Some? then FirstCallback(a, text) else FirstCallback(b, text)
  {
    var ab := a + b;
    assert forall i :: 0 <= i < |a| ==> ab[i] == a[i];
    assert forall i :: 0 <= i < |b| ==> ab[|a| + i] == b[i];
    match FirstMatch(a, text)
    case Some(i) =>
      var m := FirstMatch(ab, text).value;
      assert m == i;
    case None =>
      match FirstMatch(b, text)
      case Some(i) =>
        var m := FirstMatch(ab, text).value;
        assert m == |a| + i;
      case None =>
        assert forall i :: 0 <= i < |ab| ==> !HandlerMatches(ab[i], text) by {
          forall i | 0 <= i < |ab| ensures !HandlerMatches(ab[i], text) {
            if i >= |a| { assert ab[i] == b[i - |a|]; }
          }
        }
  }

  /** The callback the conversation handler runs for a message, or `None` when it declines it. */
  function Select(table: Table, conversation: Conversation, text: string): Option<Callback>
  {
    match conversation
    case Idle => FirstCallback(table.entryPoints, text)
    case Active(s) =>
      var handlers := if s in table.states then table.states[s] else [];
      match FirstCallback(handlers, text)
      case Some(cb) => Some(cb)
      case None => FirstCallback(table.fallbacks, text)
  }

  /** The two-stage choice (state handlers, then fallbacks) is the first match among all candidates. */
  lemma SelectIsFirstCandidate(table: Table, conversation: Conversation, text: string)
    ensures Select(table, conversation, text) == FirstCallback(Candidates(table, conversation), text)
  {
    if conversation.Active? {
      var s := conversation.state;
      FirstCallbackConcat(if s in table.states then table.states[s] else [], table.fallbacks, text);
    }
  }

  /** `filters.TEXT & ~(filters.COMMAND | filters.Regex("^Done$"))` */
  const NotCommandNorDone: Filter := And(AnyText, Not(Or(BotCommand, Line("Done"))))

  /** The table built in `main`. */
  const Gym: Table := Table(
    [Command("start", OnStart)],
    map[
      ChoosingCategory := [Message(TextIn(Catalog.CategoryCommands), OnChoosingCategory)],
      ChoosingExercise := [
        Message(Line(Catalog.NewExercise), OnAddingExercise),
        Message(NotCommandNorDone, OnChoosingExercise),
        Message(TextIn(Catalog.CategoryCommands), OnChoosingCategory)
      ],
      AddingExercise := [Message(NotCommandNorDone, OnChoosingExercise)],
      DoingExercise := [
        Message(WeightTimesReps, OnLoggingExercise),
        Message(Line("Done"), OnDoneExercise)
      ]
    ],
    [Message(Line("/quit"), OnQuit)])

  /** Every state of `range(4)` has its handlers; there is one entry point and one fallback. */
  lemma GymCoversEveryState(s: State)
    ensures s in Gym.states && Gym.states[s] != []
    ensures |Gym.entryPoints| == 1 && |Gym.fallbacks| == 1
    ensures Gym.entryPoints[0] == Command("start", OnStart)
    ensures Gym.fallbacks[0].callback == OnQuit
  {
  }

  /**
   * A command is recognised whatever case it is typed in and whatever follows
   * it, unless it runs on into more command characters or is addressed with `@`.
   */
  lemma {:induction false} CommandWithArguments(command: string, typed: string, rest: string)
    requires |typed| == |command| && command != []
    requires forall i :: 0 <= i < |typed| ==> IsCommandChar(typed[i])
    requires Text.ToLower(typed) == command
    ensures CommandMatches(command, "/" + typed + rest) <==> rest == [] || (!IsCommandChar(rest[0]) && rest[0] != '@')
  {
    var text := "/" + typed + rest;
    assert text[1..] == typed + rest;
    CommandNameOfRun(typed, rest);
    if rest != [] && IsCommandChar(rest[0]) {
      var name := CommandName(text[1..]);
      assert |name| > |typed| by {
        CommandNameExtends(typed, rest);
      }
      assert |Text.ToLower(name)| == |name|;
    }
  }

  /** A run of command characters followed by a non-command character is the command name. */
  lemma {:induction false} CommandNameOfRun(run: string, rest: string)
    requires forall i :: 0 <= i < |run| ==> IsCommandChar(run[i])
    ensures rest == [] || !IsCommandChar(rest[0]) ==> CommandName(run + rest) == run
  {
    if run != [] {
      assert (run + rest)[1..] == run[1..] + rest;
      CommandNameOfRun(run[1..], rest);
    } else {
      assert run + rest == rest;
    }
  }

  /** A run of command characters followed by one more is a strict prefix of the command name. */
  lemma {:induction false} CommandNameExtends(run: string, rest: string)
    requires forall i :: 0 <= i < |run| ==> IsCommandChar(run[i])
    requires rest != [] && IsCommandChar(rest[0])
    ensures |CommandName(run + rest)| > |run|
  {
    if run != [] {
      assert (run + rest)[1..] == run[1..] + rest;
      CommandNameExtends(run[1..], rest);
    } else {
      assert run + rest == rest;
    }
  }

  /** Free text: neither a command nor the `Done` button. */
  predicate IsFreeText(text: string) {
    !IsBotCommand(text) && !LineMatches("Done", text)
  }

  predicate IsQuit(text: string) {
    LineMatches("/quit", text)
  }

  lemma NotCommandNorDoneIsFreeText(text: string)
    ensures Matches(NotCommandNorDone, text) == IsFreeText(text)
  {
    assert Matches(Or(BotCommand, Line("Done")), text) == (IsBotCommand(text) || LineMatches("Done", text));
  }

  lemma FirstCallbackOfFallbacks(text: string)
    ensures FirstCallback(Gym.fallbacks, text) == if IsQuit(text) then Some(OnQuit) else None
  {
    assert Gym.fallbacks[0].filter == Line("/quit");
  }

  /** Outside a conversation only `/start` is taken; `/quit` and everything else is declined. */
  lemma SelectWhenIdle(text: string)
    ensures Select(Gym, Idle, text) == if CommandMatches("start", text) then Some(OnStart) else None
  {
    assert Gym.entryPoints == [Command("start", OnStart)];
  }

  lemma SelectChoosingCategory(text: string)
    ensures Select(Gym, Active(ChoosingCategory), text) ==
              if text in Catalog.CategoryCommands then Some(OnChoosingCategory)
              else if IsQuit(text) then Some(OnQuit)
              else None
  {
    var hs := Gym.states[ChoosingCategory];
    assert hs[0].filter == TextIn(Catalog.CategoryCommands);
    FirstCallbackOfFallbacks(text);
  }

  /** In `CHOOSING_EXERCISE` the `New exercise` button is checked before free text, then the category commands. */
  lemma SelectChoosingExercise(text: string)
    ensures Select(Gym, Active(ChoosingExercise), text) ==
              if LineMatches(Catalog.NewExercise, text) then Some(OnAddingExercise)
              else if IsFreeText(text) then Some(OnChoosingExercise)
              else if text in Catalog.CategoryCommands then Some(OnChoosingCategory)
              else if IsQuit(text) then Some(OnQuit)
              else None
  {
    var hs := Gym.states[ChoosingExercise];
    assert hs[0].filter == Line(Catalog.NewExercise);
    assert hs[1].filter == NotCommandNorDone;
    assert hs[2].filter == TextIn(Catalog.CategoryCommands);
    NotCommandNorDoneIsFreeText(text);
    FirstCallbackOfFallbacks(text);
  }

  lemma SelectAddingExercise(text: string)
    ensures Select(Gym, Active(AddingExercise), text) ==
              if IsFreeText(text) then Some(OnChoosingExercise)
              else if IsQuit(text) then Some(OnQuit)
              else None
  {
    var hs := Gym.states[AddingExercise];
    assert hs[0].filter == NotCommandNorDone;
    NotCommandNorDoneIsFreeText(text);
    FirstCallbackOfFallbacks(text);
  }

  lemma SelectDoingExercise(text: string)
    ensures Select(Gym, Active(DoingExercise), text) ==
              if Measurement.Parse(text).Some? then Some(OnLoggingExercise)
              else if LineMatches("Done", text) then Some(OnDoneExercise)
              else if IsQuit(text) then Some(OnQuit)
              else None
  {
    var hs := Gym.states[DoingExercise];
    assert hs[0].filter == WeightTimesReps;
    assert hs[1].filter == Line("Done");
    FirstCallbackOfFallbacks(text);
  }
}
