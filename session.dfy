/**
 * One user's session as the running bot holds it: the conversation state the
 * `ConversationHandler` stores and the `context.user_data` dictionary the
 * callbacks change in place with `pop` and `setdefault`. Each callback is a
 * method proved equal to its function in `Handlers`, and `HandleUpdate` is one
 * text message, proved equal to `Handlers.Next`.
 */
module Bot {
  import opened Wrappers
  import opened UserData
  import Catalog
  import Measurement
  import opened Dispatch
  import opened Handlers
  import Transitions

  /** What a callback that did not raise hands back: its return value and its reply. */
  type Response = (Step, Reply)

  /** A callback's result, together with the dictionary it left, as a `Handlers` outcome. */
  function AsOutcome(data: Dict, r: Result<Response, Exception>): (o: Outcome)
    ensures o.Returned? <==> r.Success?
    ensures o.data == data
  {
    match r
    case Success(response) => Returned(response.0, data, response.1)
    case Failure(error) => Raised(data, error)
  }

  class Session {
    var conversation: Conversation
    var userData: Dict

    /** A user the bot has not seen: no conversation and an empty dictionary. */
    constructor ()
      ensures conversation == Idle && userData == []
    {
      conversation := Idle;
      userData := [];
    }

    /** The reachable-session invariant of `Handlers.Inv`. */
    ghost predicate Valid()
      reads this
    {
      Inv(conversation, userData)
    }

    /** `if k in context.user_data: context.user_data.pop(k)` */
    method DiscardKey(k: string)
      modifies this
      ensures userData == Discard(old(userData), k)
      ensures conversation == old(conversation)
    {
      if Has(userData, k) {
        userData := Pop(userData, k);
      }
    }

    /** `context.user_data.setdefault(k, v)` */
    method SetDefaultKey(k: string, v: string)
      modifies this
      ensures userData == SetDefault(old(userData), k, v)
      ensures conversation == old(conversation)
    {
      if !Has(userData, k) {
        UniqueKeysAppend(userData, k, v);
        userData := userData + [(k, v)];
      }
    }

    method Start() returns (r: Result<Response, Exception>)
      modifies this
      ensures AsOutcome(userData, r) == Handlers.Start(old(userData))
      ensures conversation == old(conversation)
    {
      DiscardKey("category");
      DiscardKey("exercise");
      r := Success((Goto(ChoosingCategory), Reply(Welcome, NoKeyboard)));
    }

    method ChooseCategory(text: string) returns (r: Result<Response, Exception>)
      modifies this
      ensures AsOutcome(userData, r) == Handlers.ChooseCategory(old(userData), text)
      ensures conversation == old(conversation)
    {
      var category := Catalog.NormaliseCategory(text);
      DiscardKey("category");
      DiscardKey("exercise");
      SetDefaultKey("category", category);
      match Catalog.ExerciseMenu(category)
      case Success(menu) =>
        r := Success((Goto(ChoosingExercise), Reply(MenuPrompt, Buttons(menu))));
      case Failure(key) =>
        r := Failure(KeyError(key));
    }

    method ChooseExercise(text: string) returns (r: Result<Response, Exception>)
      modifies this
      ensures AsOutcome(userData, r) == Handlers.ChooseExercise(old(userData), text)
      ensures conversation == old(conversation)
    {
      var name: string;
      if Has(userData, "exercise") {
        name := Get(userData, "exercise").value;
      } else {
        name := text;
        SetDefaultKey("exercise", name);
      }
      r := Success((Goto(DoingExercise), Reply(LogPrompt(name), Buttons([["Done"]]))));
    }

    method AddExercise() returns (r: Result<Response, Exception>)
      ensures AsOutcome(userData, r) == Handlers.AddExercise(userData)
    {
      r := Success((Goto(AddingExercise), Reply(NamePrompt, NoKeyboard)));
    }

    method LogExercise(text: string) returns (r: Result<Response, Exception>)
      requires Measurement.Parse(text).Some?
      ensures AsOutcome(userData, r) == Handlers.LogExercise(userData, text)
    {
      var sample := Measurement.Parse(text).value;
      var name := Get(userData, "exercise");
      r := Success((Goto(DoingExercise), Reply(Measurement.Confirmation(Shown(name), sample), Buttons([[text], ["Done"]]))));
    }

    method DoneExercise() returns (r: Result<Response, Exception>)
      modifies this
      ensures AsOutcome(userData, r) == Handlers.DoneExercise(old(userData))
      ensures conversation == old(conversation)
    {
      DiscardKey("exercise");
      match Get(userData, "category")
      case None =>
        r := Failure(AttributeError("replace"));
      case Some(category) =>
        match Catalog.ExerciseMenu(category)
        case Success(menu) =>
          r := Success((Goto(ChoosingExercise), Reply(MenuPrompt, Buttons(menu))));
        case Failure(key) =>
          r := Failure(KeyError(key));
    }

    method Quit() returns (r: Result<Response, Exception>)
      modifies this
      ensures AsOutcome(userData, r) == Handlers.Quit(old(userData))
      ensures conversation == old(conversation)
    {
      DiscardKey("category");
      DiscardKey("exercise");
      r := Success((End, Reply(Farewell, RemoveKeyboard)));
    }

    /** Calls the callback the table selected. */
    method RunCallback(cb: Callback, text: string) returns (r: Result<Response, Exception>)
      requires cb == OnLoggingExercise ==> Measurement.Parse(text).Some?
      modifies this
      ensures AsOutcome(userData, r) == Run(cb, old(userData), text)
      ensures conversation == old(conversation)
    {
      match cb
      case OnStart =>
        r := Start();
        RunsStart(old(userData), text);
      case OnChoosingCategory =>
        r := ChooseCategory(text);
        RunsChooseCategory(old(userData), text);
      case OnChoosingExercise =>
        r := ChooseExercise(text);
        RunsChooseExercise(old(userData), text);
      case OnAddingExercise =>
        r := AddExercise();
        RunsAddExercise(old(userData), text);
      case OnLoggingExercise =>
        r := LogExercise(text);
        RunsLogExercise(old(userData), text);
      case OnDoneExercise =>
        r := DoneExercise();
        RunsDoneExercise(old(userData), text);
      case OnQuit =>
        r := Quit();
        RunsQuit(old(userData), text);
    }

    /**
     * One text message: the conversation handler runs the callback it selects
     * and stores the state it returns (the state stays when the callback
     * raises); a message it declines goes to `show_data`. From a valid session
     * no callback raises and the session stays valid.
     */
    method HandleUpdate(text: string) returns (reply: Option<Reply>, raised: Option<Exception>)
      modifies this
      ensures Effect(conversation, userData, reply, raised) == Next(old(conversation), old(userData), text)
      ensures old(Valid()) ==> Valid() && raised == None
    {
      if Valid() {
        Transitions.InvariantPreserved(conversation, userData, text);
      }
      match Select(Gym, conversation, text)
      case None =>
        raised := None;
        if CommandMatches("show_data", text) {
          reply := Some(ShowData(userData));
        } else {
          reply := None;
        }
      case Some(cb) =>
        NextRunsSelected(conversation, userData, text, cb);
        var r := RunCallback(cb, text);
        match r
        case Success(response) =>
          conversation := match response.0 { case Goto(s) => Active(s) case End => Idle };
          reply := Some(response.1);
          raised := None;
        case Failure(error) =>
          reply := None;
          raised := Some(error);
    }
  }
}
