/**
 * The callbacks of the conversation, each as a function from the session
 * dictionary (and the message text) to what it returns: the next state, the
 * dictionary after its `pop`/`setdefault` calls, and its reply. A callback that
 * raises keeps the dictionary changes it made before the raise and sends no
 * reply; the library then leaves the conversation state as it was.
 */
module Handlers {
  import opened Wrappers
  import opened UserData
  import Text
  import Catalog
  import Measurement
  import Facts
  import opened Dispatch

  /** The keyboard sent with a reply: none, buttons in rows, or removal of the keyboard. */
  datatype Keyboard = NoKeyboard | Buttons(rows: seq<seq<string>>) | RemoveKeyboard

  datatype Reply = Reply(text: string, keyboard: Keyboard)

  /** The Python exceptions a callback can raise. */
  datatype Exception = KeyError(key: string) | AttributeError(name: string)

  /** What a callback returns: a state, or `ConversationHandler.END`. */
  datatype Step = Goto(state: State) | End

  datatype Outcome =
    | Returned(next: Step, data: Dict, reply: Reply)
    | Raised(data: Dict, error: Exception)

  const Welcome: string := "Welcome! Let's do some workout! \n\U{1F447} "
  const MenuPrompt: string := "Choose an exercise below: "
  const NamePrompt: string := "What is the name of the exercise?"
  const Farewell: string := "Well done! See you next time!"
  const ShowDataIntro: string := "This is what you already told me: "

  /** The prompt of `choosing_exercise`. */
  function LogPrompt(exercise: string): string {
    exercise + "? \nLog the exercise: \n*_weight_* x *_reps_*"
  }

  /** `f"{value}"` of what `user_data.get` returned: `None` prints as `None`. */
  function Shown(value: Option<string>): string {
    match value
    case Some(s) => s
    case None => "None"
  }

  /** `after` is `before` without `"category"` and `"exercise"`, every other key untouched. */
  ghost predicate Cleared(before: Dict, after: Dict) {
    && !Has(after, "category") && !Has(after, "exercise")
    && forall k :: k != "category" && k != "exercise" ==> Get(after, k) == Get(before, k)
  }

  /** The guarded pops of `"category"` and `"exercise"` that `start`, `choosing_category` and `quit` open with. */
  function ClearSession(d: Dict): (r: Dict)
    ensures Cleared(d, r)
  {
    Discard(Discard(d, "category"), "exercise")
  }

  /** The dictionary `choosing_category` leaves: the session cleared, then `category` set to the normalised key. */
  function WithCategory(d: Dict, category: string): (r: Dict)
    ensures Get(r, "category") == Some(category)
    ensures !Has(r, "exercise")
    ensures forall k :: k != "category" && k != "exercise" ==> Get(r, k) == Get(d, k)
  {
    var cleared := ClearSession(d);
    assert "exercise" != "category";
    SetDefault(cleared, "category", category)
  }

  /** The dictionary `done_exercise` leaves: the exercise dropped, the category kept. */
  function WithoutExercise(d: Dict): (r: Dict)
    ensures !Has(r, "exercise")
    ensures forall k :: k != "exercise" ==> Get(r, k) == Get(d, k)
    ensures Get(r, "category") == Get(d, "category")
  {
    assert "category" != "exercise";
    Discard(d, "exercise")
  }

  /** `start`. */
  function Start(d: Dict): (o: Outcome)
    ensures o.Returned? && o.next == Goto(ChoosingCategory)
    ensures o.reply == Reply(Welcome, NoKeyboard)
    ensures Cleared(d, o.data)
  {
    Returned(Goto(ChoosingCategory), ClearSession(d), Reply(Welcome, NoKeyboard))
  }

  /**
   * `choosing_category`: the normalised text replaces any stored category, the
   * exercise is dropped, and the menu of that category is sent; a text that does
   * not name a catalog key raises `KeyError` after the dictionary was updated.
   */
  function ChooseCategory(d: Dict, text: string): (o: Outcome)
    ensures Get(o.data, "category") == Some(Catalog.NormaliseCategory(text))
    ensures !Has(o.data, "exercise")
    ensures forall k :: k != "category" && k != "exercise" ==> Get(o.data, k) == Get(d, k)
    ensures o.Returned? <==> Catalog.ExerciseMenu(Catalog.NormaliseCategory(text)).Success?
    ensures o.Returned? ==>
              && o.next == Goto(ChoosingExercise)
              && o.reply == Reply(MenuPrompt, Buttons(Catalog.ExerciseMenu(Catalog.NormaliseCategory(text)).value))
    ensures o.Raised? ==> o.error == KeyError(Catalog.ExerciseMenu(Catalog.NormaliseCategory(text)).error)
  {
    var category := Catalog.NormaliseCategory(text);
    var d1 := WithCategory(d, category);
    match Catalog.ExerciseMenu(category)
    case Success(menu) => Returned(Goto(ChoosingExercise), d1, Reply(MenuPrompt, Buttons(menu)))
    case Failure(key) => Raised(d1, KeyError(key))
  }

  /**
   * `choosing_exercise`: an exercise already started is kept; otherwise the
   * message text becomes the exercise. Either way the next state is `DOING_EXERCISE`.
   */
  function ChooseExercise(d: Dict, text: string): (o: Outcome)
    ensures o.Returned? && o.next == Goto(DoingExercise)
    ensures Get(o.data, "exercise") == if Has(d, "exercise") then Get(d, "exercise") else Some(text)
    ensures forall k :: k != "exercise" ==> Get(o.data, k) == Get(d, k)
    ensures o.reply == Reply(LogPrompt(Get(o.data, "exercise").value), Buttons([["Done"]]))
  {
    if Has(d, "exercise") then
      Returned(Goto(DoingExercise), d, Reply(LogPrompt(Get(d, "exercise").value), Buttons([["Done"]])))
    else
      var d1: Dict := SetDefault(d, "exercise", text);
      Returned(Goto(DoingExercise), d1, Reply(LogPrompt(text), Buttons([["Done"]])))
  }

  /** `adding_exercise`: asks for a name and changes nothing. */
  function AddExercise(d: Dict): (o: Outcome)
    ensures o.Returned? && o.next == Goto(AddingExercise)
    ensures o.data == d
    ensures o.reply == Reply(NamePrompt, NoKeyboard)
  {
    Returned(Goto(AddingExercise), d, Reply(NamePrompt, NoKeyboard))
  }

  /**
   * `logging_exercise`, for a text the `DOING_EXERCISE` filter accepted: the
   * measurement is confirmed and offered again as a button; nothing is stored.
   */
  function LogExercise(d: Dict, text: string): (o: Outcome)
    requires Measurement.Parse(text).Some?
    ensures o.Returned? && o.next == Goto(DoingExercise)
    ensures o.data == d
    ensures o.reply == Reply(Measurement.Confirmation(Shown(Get(d, "exercise")), Measurement.Parse(text).value),
                             Buttons([[text], ["Done"]]))
  {
    var sample := Measurement.Parse(text).value;
    Returned(Goto(DoingExercise), d, Reply(Measurement.Confirmation(Shown(Get(d, "exercise")), sample), Buttons([[text], ["Done"]])))
  }

  /**
   * `done_exercise`: drops the exercise, keeps the category, and sends its menu
   * again. Without a category `None.replace` raises `AttributeError`; a category
   * that is not a catalog key raises `KeyError`.
   */
  function DoneExercise(d: Dict): (o: Outcome)
    ensures !Has(o.data, "exercise")
    ensures forall k :: k != "exercise" ==> Get(o.data, k) == Get(d, k)
    ensures o.Returned? <==> Has(d, "category") && Catalog.ExerciseMenu(Get(d, "category").value).Success?
    ensures o.Returned? ==>
              && o.next == Goto(ChoosingExercise)
              && o.reply == Reply(MenuPrompt, Buttons(Catalog.ExerciseMenu(Get(d, "category").value).value))
    ensures o.Raised? && !Has(d, "category") ==> o.error == AttributeError("replace")
    ensures o.Raised? && Has(d, "category") ==> o.error == KeyError(Catalog.ExerciseMenu(Get(d, "category").value).error)
  {
    var d1 := WithoutExercise(d);
    match Get(d1, "category")
    case None => Raised(d1, AttributeError("replace"))
    case Some(category) =>
      match Catalog.ExerciseMenu(category)
      case Success(menu) => Returned(Goto(ChoosingExercise), d1, Reply(MenuPrompt, Buttons(menu)))
      case Failure(key) => Raised(d1, KeyError(key))
  }

  /** `quit`: clears the session, removes the keyboard and ends the conversation. */
  function Quit(d: Dict): (o: Outcome)
    ensures o.Returned? && o.next == End
    ensures o.reply == Reply(Farewell, RemoveKeyboard)
    ensures Cleared(d, o.data)
  {
    Returned(End, ClearSession(d), Reply(Farewell, RemoveKeyboard))
  }

  /** `show_data`: the dictionary, one `key - value` line per entry, after a fixed introduction. */
  function ShowData(d: Dict): (r: Reply)
    ensures r.keyboard == NoKeyboard
    ensures r.text == ShowDataIntro + "\n" + Text.Join("\n", Facts.FactLines(d)) + "\n"
  {
    Reply(ShowDataIntro + Facts.FactsToStr(d), NoKeyboard)
  }

  /** The outcome of running callback `cb`: only the two callbacks that look up the catalog can raise, and two never change the dictionary. */
  function Run(cb: Callback, d: Dict, text: string): (o: Outcome)
    requires cb == OnLoggingExercise ==> Measurement.Parse(text).Some?
    ensures o.Raised? ==> cb == OnChoosingCategory || cb == OnDoneExercise
    ensures cb == OnAddingExercise || cb == OnLoggingExercise ==> o.data == d
  {
    match cb
    case OnStart => Start(d)
    case OnChoosingCategory => ChooseCategory(d, text)
    case OnChoosingExercise => ChooseExercise(d, text)
    case OnAddingExercise => AddExercise(d)
    case OnLoggingExercise => LogExercise(d, text)
    case OnDoneExercise => DoneExercise(d)
    case OnQuit => Quit(d)
  }

  // `Run` calls the callback it names: one lemma per callback, so that a caller unfolds only the case it needs.

  lemma RunsStart(d: Dict, text: string)
    ensures Run(OnStart, d, text) == Start(d)
  {
  }

  lemma RunsChooseCategory(d: Dict, text: string)
    ensures Run(OnChoosingCategory, d, text) == ChooseCategory(d, text)
  {
  }

  lemma RunsChooseExercise(d: Dict, text: string)
    ensures Run(OnChoosingExercise, d, text) == ChooseExercise(d, text)
  {
  }

  lemma RunsAddExercise(d: Dict, text: string)
    ensures Run(OnAddingExercise, d, text) == AddExercise(d)
  {
  }

  lemma RunsLogExercise(d: Dict, text: string)
    requires Measurement.Parse(text).Some?
    ensures Run(OnLoggingExercise, d, text) == LogExercise(d, text)
  {
  }

  lemma RunsDoneExercise(d: Dict, text: string)
    ensures Run(OnDoneExercise, d, text) == DoneExercise(d)
  {
  }

  lemma RunsQuit(d: Dict, text: string)
    ensures Run(OnQuit, d, text) == Quit(d)
  {
  }

  /** The conversation handler only hands `logging_exercise` a text its filter accepted. */
  lemma SelectedLoggingParses(conversation: Conversation, text: string)
    requires Select(Gym, conversation, text) == Some(OnLoggingExercise)
    ensures Measurement.Parse(text).Some?
  {
    match conversation
    case Idle => SelectWhenIdle(text);
    case Active(ChoosingCategory) => SelectChoosingCategory(text);
    case Active(ChoosingExercise) => SelectChoosingExercise(text);
    case Active(AddingExercise) => SelectAddingExercise(text);
    case Active(DoingExercise) => SelectDoingExercise(text);
  }

  /** What one text message does to the bot: the new conversation, dictionary, reply and raised exception. */
  datatype Effect = Effect(conversation: Conversation, data: Dict, reply: Option<Reply>, raised: Option<Exception>)

  /**
   * One text message: the conversation handler runs the callback it selects; when
   * it declines the message, `show_data` (registered after it in the same group)
   * gets its turn; otherwise nothing happens.
   */
  function Next(conversation: Conversation, d: Dict, text: string): (e: Effect)
    ensures e.raised.Some? ==> e.conversation == conversation && e.reply.None?
    ensures e.reply.None? && e.raised.None? ==> e.conversation == conversation && e.data == d
  {
    match Select(Gym, conversation, text)
    case None =>
      if CommandMatches("show_data", text) then Effect(conversation, d, Some(ShowData(d)), None)
      else Effect(conversation, d, None, None)
    case Some(cb) =>
      assert cb == OnLoggingExercise ==> Measurement.Parse(text).Some? by {
        if cb == OnLoggingExercise { SelectedLoggingParses(conversation, text); }
      }
      Apply(conversation, Run(cb, d, text))
  }

  /** Once the table selects a callback, the message's effect is that callback's outcome. */
  lemma NextRunsSelected(conversation: Conversation, d: Dict, text: string, cb: Callback)
    requires Select(Gym, conversation, text) == Some(cb)
    ensures cb == OnLoggingExercise ==> Measurement.Parse(text).Some?
    ensures Next(conversation, d, text) == Apply(conversation, Run(cb, d, text))
  {
    if cb == OnLoggingExercise { SelectedLoggingParses(conversation, text); }
  }

  /** What the conversation handler makes of a callback's outcome: the returned state is stored; after a raise the state stays. */
  function Apply(conversation: Conversation, o: Outcome): (e: Effect)
    ensures e.data == o.data
    ensures e.reply.Some? <==> o.Returned?
    ensures e.raised.Some? <==> o.Raised?
    ensures o.Raised? ==> e.conversation == conversation && e.raised == Some(o.error)
  {
    match o
    case Returned(step, d1, reply) =>
      Effect(match step { case Goto(s) => Active(s) case End => Idle }, d1, Some(reply), None)
    case Raised(d1, error) => Effect(conversation, d1, None, Some(error))
  }

  /** One of the catalog keys is stored as the category. */
  predicate CategoryChosen(d: Dict) {
    Has(d, "category") && Get(d, "category").value in Catalog.Database
  }

  /**
   * The dictionary in each state reachable from `/start`: a catalog category in
   * every state after one was chosen, and an exercise exactly in `DOING_EXERCISE`.
   */
  predicate Inv(conversation: Conversation, d: Dict) {
    match conversation
    case Idle => true
    case Active(ChoosingCategory) => !Has(d, "category") && !Has(d, "exercise")
    case Active(ChoosingExercise) => CategoryChosen(d) && !Has(d, "exercise")
    case Active(AddingExercise) => CategoryChosen(d) && !Has(d, "exercise")
    case Active(DoingExercise) => CategoryChosen(d) && Has(d, "exercise")
  }

  /** Whether a category was chosen depends only on the `category` entry. */
  lemma SameCategory(d: Dict, r: Dict)
    requires CategoryChosen(d) && Get(r, "category") == Get(d, "category")
    ensures CategoryChosen(r)
  {
  }

  /** A chosen category has a menu, so `done_exercise` cannot raise. */
  lemma ChosenHasMenu(d: Dict)
    requires CategoryChosen(d)
    ensures Has(d, "category") && Catalog.ExerciseMenu(Get(d, "category").value).Success?
  {
    KeyHasMenu(Get(d, "category").value);
  }

  /** Every catalog key has a menu. */
  lemma {:induction false} KeyHasMenu(key: string)
    requires key in Catalog.Database
    ensures Text.RemoveAll(key, '/') == key
    ensures Catalog.ExerciseMenu(key).Success?
  {
    assert key == "collective" || key == "muscleupper" || key == "musclelower" || key == "cardio";
    assert '/' !in key;
  }
}
