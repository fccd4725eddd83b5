/**
 * Properties of one message, and of a sequence of messages, under the
 * conversation table and the callbacks: where each input leads, what it does to
 * the session dictionary, and the invariant every reachable session keeps.
 */
module Transitions {
  import opened Wrappers
  import opened UserData
  import Text
  import Catalog
  import Measurement
  import opened Dispatch
  import opened Handlers

  /** The messages a state takes, stated per state without the table. */
  predicate Accepted(conversation: Conversation, text: string) {
    match conversation
    case Idle => CommandMatches("start", text)
    case Active(ChoosingCategory) => text in Catalog.CategoryCommands || IsQuit(text)
    case Active(ChoosingExercise) =>
      LineMatches(Catalog.NewExercise, text) || IsFreeText(text) || text in Catalog.CategoryCommands || IsQuit(text)
    case Active(AddingExercise) => IsFreeText(text) || IsQuit(text)
    case Active(DoingExercise) => Measurement.Parse(text).Some? || LineMatches("Done", text) || IsQuit(text)
  }

  /** The table takes exactly the messages listed for each state. */
  lemma SelectIffAccepted(conversation: Conversation, text: string)
    ensures Select(Gym, conversation, text).Some? <==> Accepted(conversation, text)
  {
    match conversation
    case Idle => SelectWhenIdle(text);
    case Active(ChoosingCategory) => SelectChoosingCategory(text);
    case Active(ChoosingExercise) => SelectChoosingExercise(text);
    case Active(AddingExercise) => SelectAddingExercise(text);
    case Active(DoingExercise) => SelectDoingExercise(text);
  }

  /**
   * A message no handler of the conversation takes changes neither the state nor
   * the dictionary; only `show_data` may answer it.
   */
  lemma UnmatchedIgnored(conversation: Conversation, d: Dict, text: string)
    requires !Accepted(conversation, text)
    ensures Next(conversation, d, text).conversation == conversation
    ensures Next(conversation, d, text).data == d
    ensures Next(conversation, d, text).raised == None
    ensures Next(conversation, d, text).reply ==
              if CommandMatches("show_data", text) then Some(ShowData(d)) else None
  {
    SelectIffAccepted(conversation, text);
  }

  /** `/start` outside a conversation clears the session and asks for a category. */
  lemma StartFromIdle(d: Dict, text: string)
    requires CommandMatches("start", text)
    ensures Next(Idle, d, text).conversation == Active(ChoosingCategory)
    ensures Cleared(d, Next(Idle, d, text).data)
    ensures Next(Idle, d, text).reply == Some(Reply(Welcome, NoKeyboard))
    ensures Next(Idle, d, text).raised == None
  {
    assert Select(Gym, Idle, text) == Some(OnStart) by { SelectWhenIdle(text); }
    NextRunsSelected(Idle, d, text, OnStart);
    RunsStart(d, text);
  }

  lemma StartIsNotQuit(text: string)
    requires CommandMatches("start", text)
    ensures !IsQuit(text)
    ensures text !in Catalog.CategoryCommands
    ensures !CommandMatches("show_data", text)
  {
    var name := CommandName(text[1..]);
    assert |name| == 5 by { assert |Text.ToLower(name)| == |name|; }
    assert name[0] == text[1];
    assert Text.LowerChar(text[1]) == 's' by { assert Text.ToLower(name)[0] == 's'; }
  }

  /** Re-entry is off: `/start` during a conversation is ignored. */
  lemma NoReentry(state: State, d: Dict, text: string)
    requires CommandMatches("start", text)
    ensures Next(Active(state), d, text) == Effect(Active(state), d, None, None)
  {
    StartIsNotQuit(text);
    assert !LineMatches(Catalog.NewExercise, text) && !LineMatches("Done", text);
    assert Measurement.Parse(text) == None by {
      assert Measurement.Span(Measurement.Digit, text).0 == [] by {
        assert !Measurement.In(Measurement.Digit, text[0]);
      }
    }
    UnmatchedIgnored(Active(state), d, text);
  }

  lemma QuitIsOnlyFallback(text: string)
    requires IsQuit(text)
    ensures text !in Catalog.CategoryCommands
    ensures !IsFreeText(text) && !LineMatches(Catalog.NewExercise, text) && !LineMatches("Done", text)
    ensures Measurement.Parse(text) == None
    ensures !CommandMatches("start", text) && !CommandMatches("show_data", text)
  {
    assert IsBotCommand(text);
    var name := CommandName(text[1..]);
    assert "quit" <= text[1..];
    assert name[..4] == "quit" by {
      assert forall i :: 0 <= i < 4 ==> IsCommandChar(text[1..][i]);
    }
    assert |name| == 4 by {
      assert |text[1..]| == 4 || text[1..][4] == '\n';
    }
    assert name == "quit";
    assert Text.ToLower(name)[0] == 'q';
    assert Measurement.Span(Measurement.Digit, text).0 == [] by {
      assert !Measurement.In(Measurement.Digit, text[0]);
    }
  }

  /** `/quit` ends the conversation from every state and clears the session. */
  lemma QuitFromAnyState(state: State, d: Dict, text: string)
    requires IsQuit(text)
    ensures Next(Active(state), d, text).conversation == Idle
    ensures Cleared(d, Next(Active(state), d, text).data)
    ensures Next(Active(state), d, text).reply == Some(Reply(Farewell, RemoveKeyboard))
    ensures Next(Active(state), d, text).raised == None
  {
    assert Select(Gym, Active(state), text) == Some(OnQuit) by {
      QuitIsOnlyFallback(text);
      match state {
        case ChoosingCategory => SelectChoosingCategory(text);
        case ChoosingExercise => SelectChoosingExercise(text);
        case AddingExercise => SelectAddingExercise(text);
        case DoingExercise => SelectDoingExercise(text);
      }
    }
    NextRunsSelected(Active(state), d, text, OnQuit);
    RunsQuit(d, text);
  }

  /** The fallback applies only inside a conversation: `/quit` with none in progress is ignored. */
  lemma QuitIgnoredWhenIdle(d: Dict, text: string)
    requires IsQuit(text)
    ensures Next(Idle, d, text) == Effect(Idle, d, None, None)
  {
    QuitIsOnlyFallback(text);
    UnmatchedIgnored(Idle, d, text);
  }

  /** `New exercise` is taken before the free-text handler and asks for a name. */
  lemma NewExerciseAsksForName(d: Dict, text: string)
    requires LineMatches(Catalog.NewExercise, text)
    ensures Next(Active(ChoosingExercise), d, text) ==
              Effect(Active(AddingExercise), d, Some(Reply(NamePrompt, NoKeyboard)), None)
  {
    assert Select(Gym, Active(ChoosingExercise), text) == Some(OnAddingExercise) by {
      SelectChoosingExercise(text);
    }
    NextRunsSelected(Active(ChoosingExercise), d, text, OnAddingExercise);
    RunsAddExercise(d, text);
  }

  /**
   * Free text in `CHOOSING_EXERCISE` (other than `New exercise`) or in
   * `ADDING_EXERCISE` starts that exercise: when no exercise is stored, as on
   * every reachable session, the name is taken from the message and appended as
   * the newest key.
   */
  lemma FreeTextStartsExercise(state: State, d: Dict, text: string)
    requires state == ChoosingExercise || state == AddingExercise
    requires !Has(d, "exercise")
    requires IsFreeText(text)
    requires state == ChoosingExercise ==> !LineMatches(Catalog.NewExercise, text)
    ensures Next(Active(state), d, text).conversation == Active(DoingExercise)
    ensures Get(Next(Active(state), d, text).data, "exercise") == Some(text)
    ensures forall k :: k != "exercise" ==> Get(Next(Active(state), d, text).data, k) == Get(d, k)
    ensures Next(Active(state), d, text).data == d + [("exercise", text)]
    ensures Next(Active(state), d, text).reply == Some(Reply(LogPrompt(text), Buttons([["Done"]])))
    ensures Next(Active(state), d, text).raised == None
  {
    assert Select(Gym, Active(state), text) == Some(OnChoosingExercise) by {
      if state == ChoosingExercise {
        SelectChoosingExercise(text);
      } else {
        SelectAddingExercise(text);
      }
    }
    NextRunsSelected(Active(state), d, text, OnChoosingExercise);
    RunsChooseExercise(d, text);
  }

  /** A category command is taken in `CHOOSING_CATEGORY` and, to switch category, in `CHOOSING_EXERCISE`; it names a catalog key. */
  lemma CategoryCommandSelected(state: State, text: string)
    requires state == ChoosingCategory || state == ChoosingExercise
    requires text in Catalog.CategoryCommands
    ensures Select(Gym, Active(state), text) == Some(OnChoosingCategory)
    ensures Catalog.NormaliseCategory(text) == text[1..]
    ensures text[1..] in Catalog.Database
    ensures Catalog.ExerciseMenu(Catalog.NormaliseCategory(text)).Success?
  {
    assert Select(Gym, Active(state), text) == Some(OnChoosingCategory) by {
      if state == ChoosingCategory {
        SelectChoosingCategory(text);
      } else {
        assert IsBotCommand(text) by {
          assert text[0] == '/' && IsCommandChar(text[1]);
        }
        assert !LineMatches(Catalog.NewExercise, text);
        SelectChoosingExercise(text);
      }
    }
    Catalog.CategoryCommandsAreKeys(text);
  }

  /**
   * When `choosing_category` runs on a text that normalises to a category with a
   * menu, that category replaces any other, the exercise is dropped and the
   * category's menu is sent.
   */
  lemma CategoryReselected(state: State, d: Dict, text: string)
    requires Select(Gym, Active(state), text) == Some(OnChoosingCategory)
    requires Catalog.ExerciseMenu(Catalog.NormaliseCategory(text)).Success?
    ensures Next(Active(state), d, text).conversation == Active(ChoosingExercise)
    ensures Get(Next(Active(state), d, text).data, "category") == Some(Catalog.NormaliseCategory(text))
    ensures !Has(Next(Active(state), d, text).data, "exercise")
    ensures forall k :: k != "category" && k != "exercise" ==> Get(Next(Active(state), d, text).data, k) == Get(d, k)
    ensures Next(Active(state), d, text).reply ==
              Some(Reply(MenuPrompt, Buttons(Catalog.ExerciseMenu(Catalog.NormaliseCategory(text)).value)))
    ensures Next(Active(state), d, text).raised == None
  {
    NextRunsSelected(Active(state), d, text, OnChoosingCategory);
    RunsChooseCategory(d, text);
  }

  /** A measurement in `DOING_EXERCISE` is confirmed and changes nothing. */
  lemma MeasurementLogged(d: Dict, text: string)
    requires Measurement.Parse(text).Some?
    ensures Next(Active(DoingExercise), d, text).conversation == Active(DoingExercise)
    ensures Next(Active(DoingExercise), d, text).data == d
    ensures Next(Active(DoingExercise), d, text).reply ==
              Some(Reply(Measurement.Confirmation(Shown(Get(d, "exercise")), Measurement.Parse(text).value),
                         Buttons([[text], ["Done"]])))
    ensures Next(Active(DoingExercise), d, text).raised == None
  {
    assert Select(Gym, Active(DoingExercise), text) == Some(OnLoggingExercise) by {
      SelectDoingExercise(text);
    }
    NextRunsSelected(Active(DoingExercise), d, text, OnLoggingExercise);
    RunsLogExercise(d, text);
  }

  lemma DoneSelected(text: string)
    requires LineMatches("Done", text)
    ensures Select(Gym, Active(DoingExercise), text) == Some(OnDoneExercise)
  {
    assert Measurement.Parse(text) == None by {
      assert Measurement.Span(Measurement.Digit, text).0 == [] by {
        assert !Measurement.In(Measurement.Digit, text[0]);
      }
    }
    SelectDoingExercise(text);
  }

  /** `done_exercise` drops the exercise, keeps the category and goes back to `CHOOSING_EXERCISE`. */
  lemma DoneAppliedToSession(d: Dict, text: string)
    requires Select(Gym, Active(DoingExercise), text) == Some(OnDoneExercise)
    requires Has(d, "category") && Catalog.ExerciseMenu(Get(d, "category").value).Success?
    ensures Next(Active(DoingExercise), d, text).conversation == Active(ChoosingExercise)
    ensures !Has(Next(Active(DoingExercise), d, text).data, "exercise")
    ensures forall k :: k != "exercise" ==> Get(Next(Active(DoingExercise), d, text).data, k) == Get(d, k)
    ensures Next(Active(DoingExercise), d, text).data == Discard(d, "exercise")
    ensures Next(Active(DoingExercise), d, text).raised == None
  {
    NextRunsSelected(Active(DoingExercise), d, text, OnDoneExercise);
    RunsDoneExercise(d, text);
  }

  /** After `Done` the menu of the stored category is sent again. */
  lemma DoneResendsMenu(d: Dict, text: string)
    requires Has(d, "category") && Catalog.ExerciseMenu(Get(d, "category").value).Success?
    requires LineMatches("Done", text)
    ensures Next(Active(DoingExercise), d, text).reply ==
              Some(Reply(MenuPrompt, Buttons(Catalog.ExerciseMenu(Get(d, "category").value).value)))
  {
    DoneSelected(text);
    NextRunsSelected(Active(DoingExercise), d, text, OnDoneExercise);
    RunsDoneExercise(d, text);
  }

  /** `Done` in `DOING_EXERCISE` returns to the menu of the stored category. */
  lemma DoneReturnsToMenu(d: Dict, text: string)
    requires Has(d, "category") && Catalog.ExerciseMenu(Get(d, "category").value).Success?
    requires LineMatches("Done", text)
    ensures Next(Active(DoingExercise), d, text).conversation == Active(ChoosingExercise)
    ensures !Has(Next(Active(DoingExercise), d, text).data, "exercise")
    ensures forall k :: k != "exercise" ==> Get(Next(Active(DoingExercise), d, text).data, k) == Get(d, k)
    ensures Next(Active(DoingExercise), d, text).data == Discard(d, "exercise")
    ensures Next(Active(DoingExercise), d, text).reply ==
              Some(Reply(MenuPrompt, Buttons(Catalog.ExerciseMenu(Get(d, "category").value).value)))
    ensures Next(Active(DoingExercise), d, text).raised == None
  {
    DoneSelected(text);
    DoneAppliedToSession(d, text);
    DoneResendsMenu(d, text);
  }

  /** Starting an exercise keeps the category. */
  lemma ExerciseAddedKeepsCategory(d: Dict, name: string)
    requires CategoryChosen(d) && !Has(d, "exercise")
    ensures UniqueKeys(d + [("exercise", name)])
    ensures CategoryChosen(d + [("exercise", name)]) && Has(d + [("exercise", name)], "exercise")
  {
    UniqueKeysAppend(d, "exercise", name);
    GetAppend(d, "exercise", name, "category");
    GetAppend(d, "exercise", name, "exercise");
    SameCategory(d, d + [("exercise", name)]);
  }

  /** Dropping the exercise keeps the category. */
  lemma ExerciseDroppedKeepsCategory(d: Dict)
    requires CategoryChosen(d)
    ensures CategoryChosen(Discard(d, "exercise")) && !Has(Discard(d, "exercise"), "exercise")
  {
    DiscardKeepsOthers(d, "exercise", "category");
    SameCategory(d, Discard(d, "exercise"));
  }

  // One case of `Inv` each, so that the preservation proofs below unfold only the state they reach.

  lemma InvInChoosingExercise(c: Conversation, data: Dict)
    requires c == Active(ChoosingExercise) && CategoryChosen(data) && !Has(data, "exercise")
    ensures Inv(c, data)
  {
  }

  lemma InvInAddingExercise(c: Conversation, data: Dict)
    requires c == Active(AddingExercise) && CategoryChosen(data) && !Has(data, "exercise")
    ensures Inv(c, data)
  {
  }

  lemma InvInDoingExercise(c: Conversation, data: Dict)
    requires c == Active(DoingExercise) && CategoryChosen(data) && Has(data, "exercise")
    ensures Inv(c, data)
  {
  }

  lemma PreservedChoosingCategory(d: Dict, text: string)
    requires Inv(Active(ChoosingCategory), d)
    requires text in Catalog.CategoryCommands
    ensures Inv(Next(Active(ChoosingCategory), d, text).conversation, Next(Active(ChoosingCategory), d, text).data)
    ensures Next(Active(ChoosingCategory), d, text).raised == None
  {
    var e := Next(Active(ChoosingCategory), d, text);
    assert e.conversation == Active(ChoosingExercise) && e.raised == None
      && CategoryChosen(e.data) && !Has(e.data, "exercise") by {
      CategoryCommandSelected(ChoosingCategory, text);
      CategoryReselected(ChoosingCategory, d, text);
    }
    InvInChoosingExercise(e.conversation, e.data);
  }

  lemma PreservedChoosingExercise(d: Dict, text: string)
    requires Inv(Active(ChoosingExercise), d)
    requires Accepted(Active(ChoosingExercise), text) && !IsQuit(text)
    ensures Inv(Next(Active(ChoosingExercise), d, text).conversation, Next(Active(ChoosingExercise), d, text).data)
    ensures Next(Active(ChoosingExercise), d, text).raised == None
  {
    var e := Next(Active(ChoosingExercise), d, text);
    if LineMatches(Catalog.NewExercise, text) {
      assert e.conversation == Active(AddingExercise) && e.raised == None && e.data == d by {
        NewExerciseAsksForName(d, text);
      }
      InvInAddingExercise(e.conversation, e.data);
    } else if IsFreeText(text) {
      assert e.conversation == Active(DoingExercise) && e.raised == None && e.data == d + [("exercise", text)] by {
        FreeTextStartsExercise(ChoosingExercise, d, text);
      }
      ExerciseAddedKeepsCategory(d, text);
      InvInDoingExercise(e.conversation, e.data);
    } else {
      assert e.conversation == Active(ChoosingExercise) && e.raised == None
        && CategoryChosen(e.data) && !Has(e.data, "exercise") by {
        CategoryCommandSelected(ChoosingExercise, text);
        CategoryReselected(ChoosingExercise, d, text);
      }
      InvInChoosingExercise(e.conversation, e.data);
    }
  }

  lemma PreservedAddingExercise(d: Dict, text: string)
    requires Inv(Active(AddingExercise), d)
    requires IsFreeText(text)
    ensures Inv(Next(Active(AddingExercise), d, text).conversation, Next(Active(AddingExercise), d, text).data)
    ensures Next(Active(AddingExercise), d, text).raised == None
  {
    var e := Next(Active(AddingExercise), d, text);
    assert e.conversation == Active(DoingExercise) && e.raised == None && e.data == d + [("exercise", text)] by {
      FreeTextStartsExercise(AddingExercise, d, text);
    }
    ExerciseAddedKeepsCategory(d, text);
    InvInDoingExercise(e.conversation, e.data);
  }

  lemma PreservedLogging(d: Dict, text: string)
    requires Inv(Active(DoingExercise), d)
    requires Measurement.Parse(text).Some?
    ensures Inv(Next(Active(DoingExercise), d, text).conversation, Next(Active(DoingExercise), d, text).data)
    ensures Next(Active(DoingExercise), d, text).raised == None
  {
    var e := Next(Active(DoingExercise), d, text);
    assert e.conversation == Active(DoingExercise) && e.raised == None && e.data == d by {
      MeasurementLogged(d, text);
    }
    InvInDoingExercise(e.conversation, e.data);
  }

  lemma PreservedDone(d: Dict, text: string)
    requires Inv(Active(DoingExercise), d)
    requires LineMatches("Done", text)
    ensures Inv(Next(Active(DoingExercise), d, text).conversation, Next(Active(DoingExercise), d, text).data)
    ensures Next(Active(DoingExercise), d, text).raised == None
  {
    var e := Next(Active(DoingExercise), d, text);
    assert e.conversation == Active(ChoosingExercise) && e.raised == None && e.data == Discard(d, "exercise") by {
      ChosenHasMenu(d);
      DoneSelected(text);
      DoneAppliedToSession(d, text);
    }
    ExerciseDroppedKeepsCategory(d);
    InvInChoosingExercise(e.conversation, e.data);
  }

  lemma PreservedDoingExercise(d: Dict, text: string)
    requires Inv(Active(DoingExercise), d)
    requires Accepted(Active(DoingExercise), text) && !IsQuit(text)
    ensures Inv(Next(Active(DoingExercise), d, text).conversation, Next(Active(DoingExercise), d, text).data)
    ensures Next(Active(DoingExercise), d, text).raised == None
  {
    if Measurement.Parse(text).Some? {
      PreservedLogging(d, text);
    } else {
      PreservedDone(d, text);
    }
  }

  /** In a state, a message taken by the state's own handlers keeps the invariant and raises nothing. */
  lemma PreservedInState(state: State, d: Dict, text: string)
    requires Inv(Active(state), d)
    requires Accepted(Active(state), text) && !IsQuit(text)
    ensures Inv(Next(Active(state), d, text).conversation, Next(Active(state), d, text).data)
    ensures Next(Active(state), d, text).raised == None
  {
    match state
    case ChoosingCategory => PreservedChoosingCategory(d, text);
    case ChoosingExercise => PreservedChoosingExercise(d, text);
    case AddingExercise => PreservedAddingExercise(d, text);
    case DoingExercise => PreservedDoingExercise(d, text);
  }

  /** A callback selected on a reachable session never raises, and the session stays reachable. */
  lemma InvariantPreserved(conversation: Conversation, d: Dict, text: string)
    requires Inv(conversation, d)
    ensures Inv(Next(conversation, d, text).conversation, Next(conversation, d, text).data)
    ensures Next(conversation, d, text).raised == None
  {
    if !Accepted(conversation, text) {
      UnmatchedIgnored(conversation, d, text);
    } else if conversation.Idle? {
      StartFromIdle(d, text);
    } else if IsQuit(text) {
      QuitFromAnyState(conversation.state, d, text);
    } else {
      PreservedInState(conversation.state, d, text);
    }
  }

  /** The state and dictionary after a sequence of text messages. */
  function Replay(conversation: Conversation, d: Dict, texts: seq<string>): (r: (Conversation, Dict))
    ensures texts == [] ==> r == (conversation, d)
    decreases |texts|
  {
    if texts == [] then (conversation, d)
    else
      var e := Next(conversation, d, texts[0]);
      Replay(e.conversation, e.data, texts[1..])
  }

  lemma {:induction false} ReplayKeepsInvariant(conversation: Conversation, d: Dict, texts: seq<string>)
    requires Inv(conversation, d)
    ensures Inv(Replay(conversation, d, texts).0, Replay(conversation, d, texts).1)
    decreases |texts|
  {
    if texts != [] {
      var e := Next(conversation, d, texts[0]);
      InvariantPreserved(conversation, d, texts[0]);
      ReplayKeepsInvariant(e.conversation, e.data, texts[1..]);
    }
  }

  /**
   * Whatever the dictionary held before, after any messages from outside a
   * conversation: every state past `CHOOSING_CATEGORY` holds a catalog
   * category, and an exercise is stored exactly in `DOING_EXERCISE`.
   */
  lemma ReachableSessions(d: Dict, texts: seq<string>)
    ensures var (c, d1) := Replay(Idle, d, texts);
            && (c.Active? && c != Active(ChoosingCategory) ==> CategoryChosen(d1))
            && (c.Active? ==> (Has(d1, "exercise") <==> c == Active(DoingExercise)))
  {
    ReplayKeepsInvariant(Idle, d, texts);
  }

  lemma {:induction false} PopLast(d: Entries, k: string, v: string)
    requires !Has(d, k)
    ensures Has(d + [(k, v)], k)
    ensures Pop(d + [(k, v)], k) == d
  {
    GetAppend(d, k, v, k);
    if d != [] {
      assert (d + [(k, v)])[1..] == d[1..] + [(k, v)];
      assert d[0].0 != k;
      PopLast(d[1..], k, v);
    }
  }

  /** One step of a replay. */
  lemma ReplayStep(conversation: Conversation, d: Dict, texts: seq<string>)
    requires texts != []
    ensures Replay(conversation, d, texts) ==
              Replay(Next(conversation, d, texts[0]).conversation, Next(conversation, d, texts[0]).data, texts[1..])
  {
  }

  /** Replaying two sequences one after the other is replaying their concatenation. */
  lemma {:induction false} ReplayConcat(conversation: Conversation, d: Dict, first: seq<string>, rest: seq<string>)
    ensures Replay(conversation, d, first + rest) ==
              Replay(Replay(conversation, d, first).0, Replay(conversation, d, first).1, rest)
    decreases |first|
  {
    if first != [] {
      var e := Next(conversation, d, first[0]);
      assert (first + rest)[1..] == first[1..] + rest;
      ReplayStep(conversation, d, first + rest);
      ReplayStep(conversation, d, first);
      ReplayConcat(e.conversation, e.data, first[1..], rest);
    } else {
      assert first + rest == rest;
    }
  }

  /** `New exercise` then a name: the name is stored as the exercise and logging starts. */
  lemma NamedExerciseStarted(d: Dict, name: string)
    requires CategoryChosen(d) && !Has(d, "exercise")
    requires IsFreeText(name)
    ensures UniqueKeys(d + [("exercise", name)])
    ensures Replay(Active(ChoosingExercise), d, [Catalog.NewExercise, name]) == (Active(DoingExercise), d + [("exercise", name)])
  {
    UniqueKeysAppend(d, "exercise", name);
    var e0 := Next(Active(ChoosingExercise), d, Catalog.NewExercise);
    assert e0.conversation == Active(AddingExercise) && e0.data == d by {
      NewExerciseAsksForName(d, Catalog.NewExercise);
    }
    var e1 := Next(Active(AddingExercise), d, name);
    assert e1.conversation == Active(DoingExercise) && e1.data == d + [("exercise", name)] by {
      FreeTextStartsExercise(AddingExercise, d, name);
    }
    var texts := [Catalog.NewExercise, name];
    ReplayStep(Active(ChoosingExercise), d, texts);
    ReplayStep(Active(AddingExercise), d, texts[1..]);
  }

  /** Adding an exercise to a dictionary without one and dropping it again gives the dictionary back. */
  lemma AddedThenDiscarded(d: Dict, name: string)
    requires Has(d, "category") && !Has(d, "exercise")
    ensures UniqueKeys(d + [("exercise", name)])
    ensures Has(d + [("exercise", name)], "category")
    ensures Get(d + [("exercise", name)], "category") == Get(d, "category")
    ensures Discard(d + [("exercise", name)], "exercise") == d
  {
    UniqueKeysAppend(d, "exercise", name);
    GetAppend(d, "exercise", name, "category");
    PopLast(d, "exercise", name);
  }

  /**
   * `New exercise`, a name, then `Done`: the dictionary is back as it was, so
   * the name was not kept.
   */
  lemma NewExerciseNotKept(d: Dict, name: string)
    requires CategoryChosen(d) && !Has(d, "exercise")
    requires IsFreeText(name)
    ensures Replay(Active(ChoosingExercise), d, [Catalog.NewExercise, name, "Done"]) == (Active(ChoosingExercise), d)
  {
    NamedExerciseStarted(d, name);
    AddedThenDiscarded(d, name);
    var d1: Dict := d + [("exercise", name)];
    SameCategory(d, d1);
    var e := Next(Active(DoingExercise), d1, "Done");
    assert e.conversation == Active(ChoosingExercise) && e.data == d by {
      ChosenHasMenu(d1);
      DoneReturnsToMenu(d1, "Done");
    }
    assert [Catalog.NewExercise, name, "Done"] == [Catalog.NewExercise, name] + ["Done"];
    ReplayConcat(Active(ChoosingExercise), d, [Catalog.NewExercise, name], ["Done"]);
    ReplayStep(Active(DoingExercise), d1, ["Done"]);
  }

  /**
   * In every session reachable from `/start`, free text in `CHOOSING_EXERCISE`
   * or `ADDING_EXERCISE` stores the message text as the exercise: the branch of
   * `choosing_exercise` that keeps an exercise already started is never taken.
   */
  lemma ReachedNameIsText(d: Dict, texts: seq<string>, text: string)
    requires Replay(Idle, d, texts).0 == Active(ChoosingExercise) || Replay(Idle, d, texts).0 == Active(AddingExercise)
    requires IsFreeText(text)
    requires Replay(Idle, d, texts).0 == Active(ChoosingExercise) ==> !LineMatches(Catalog.NewExercise, text)
    ensures Get(Next(Replay(Idle, d, texts).0, Replay(Idle, d, texts).1, text).data, "exercise") == Some(text)
    ensures Next(Replay(Idle, d, texts).0, Replay(Idle, d, texts).1, text).conversation == Active(DoingExercise)
  {
    var (c, d1) := Replay(Idle, d, texts);
    ReachableSessions(d, texts);
    FreeTextStartsExercise(c.state, d1, text);
  }
}
