# Gym tracker bot: the conversation, its session dictionary and its parsers

`gym-tracker-bot.py` is a Telegram bot built on python-telegram-bot's
`ConversationHandler`. A user sends `/start` and picks a category with a
command (`/collective`, `/muscleupper`, `/musclelower`, `/cardio`). The bot
then offers that category's exercises from the fixed catalog
`pseudo_database`, followed by a `New exercise` button. The user picks or
names an exercise and logs measurements written as `weight x reps`. `Done`
goes back to the exercise menu and `/quit` ends the session. `/show_data`
prints the session dictionary. No state of the conversation takes it, so it
is answered with or without a conversation in progress.

This project models that core in Dafny and proves properties about it:

- `text.dfy` (module `Text`): the Python string operations the bot uses. These are `lower`, `replace`, `removeprefix`, `join` and the regex character classes `\d` and `\s`. The bot never calls `split`; `Text.Split` is there as the inverse of `join`, which `Facts.FactsToStrLines` uses to read the lines back out of the `show_data` text.
- `userdata.dfy` (module `UserData`): `context.user_data` as an insertion-ordered list of entries with distinct keys. It covers `get`, `in`, `pop`, the guarded pop used by `start`, `choosing_category`, `done_exercise` and `quit`, and `setdefault`.
- `catalog.dfy` (module `Catalog`): `pseudo_database`, `get_list_exercises_in_category` and the category normalisation of `choosing_category`.
- `measurement.dfy` (module `Measurement`): the `weight x reps` recogniser and extraction. It is proved equal to the language of the anchored filter, described independently as `Shape`/`Render`.
- `facts.dfy` (module `Facts`): `facts_to_str`.
- `dispatch.dfy` (module `Dispatch`): the `ConversationHandler` table of `main`, written as data, and the library's selection rules.
  - With no conversation in progress, only the entry points are tried (re-entry is off).
  - Otherwise the current state's handlers are tried in order and the first match wins.
  - If none matches, the fallbacks are tried; if nothing matches, the update is declined.
- `handlers.dfy` (module `Handlers`): every callback as a function from the dictionary and the text to an outcome. An outcome is either a returned step with a reply, or a raised exception.
  - A raised exception keeps the dictionary changes made before the raise.
  - `Next` is one text message, including `show_data`, which runs only when the conversation handler declines the message.
  - `Inv` is the invariant of reachable sessions.
- `transitions.dfy` (module `Transitions`):
  - the transition relation, state by state;
  - the preservation of `Inv` and the fact that no callback raises from a reachable session;
  - `Replay` over sequences of messages, and the `New exercise` round trip.
- `session.dfy` (module `Bot`): one user's session as a class. Its fields are the conversation state and `user_data`, which the callbacks update in place with guarded `pop` and `setdefault`. Each callback method is proved equal to its `Handlers` function, and `HandleUpdate` is proved equal to `Handlers.Next`.

The conversation state and the dictionary are inputs to the model. A message
is a `string`. Replies are returned as data: the reply text and the keyboard rows.

What the bot does not do:

- No log store exists; logging only echoes the measurement.
- A new exercise name is stored in the session, not added to the catalog, and no uniqueness check is made.
- After the name, the conversation goes to `DOING_EXERCISE`, not back to the menu.
- Every category uses the single `weight x reps` pattern.
- Text in `DOING_EXERCISE` is not answered with a re-prompt. A text that is none of a measurement, `Done`, `/quit` or `/show_data` gets no answer at all.
- `/quit` ends the conversation, and a later `/start` begins a new one.
- A failed catalog lookup raises `KeyError` instead of degrading gracefully. The model proves this cannot happen from any session reachable from `/start`.

## Model

| member | source | states |
|---|---|---|
| Text.ToLower | gym-tracker-bot.py:100 | `lower()` keeps the length and lowers each character in place |
| Text.RemoveAll | gym-tracker-bot.py:100 | `replace(c, "")` deletes every `c`, keeps the count of every other character, and leaves a text without `c` unchanged |
| Text.RemoveAllConcat | gym-tracker-bot.py:59 | deleting a character keeps the order of the rest: it distributes over concatenation |
| Text.ReplaceAll | gym-tracker-bot.py:152 | `replace(",", ".")` keeps the length, changes exactly the `,` positions, and leaves no `,` |
| Text.RemovePrefix | gym-tracker-bot.py:100 | `removeprefix(p)` gives the rest after `p` when `p` is a prefix, and the text unchanged otherwise |
| Text.Join | gym-tracker-bot.py:74 | `sep.join(xs)`; its partner lemmas `Text.JoinSnoc` and `Text.SplitJoin` state that a further element adds the separator and that element, and that splitting at the separator gives the parts back |
| Text.SplitJoin | gym-tracker-bot.py:74 | splitting a `join` at its separator gives back the parts when no part holds the separator |
| UserData.Get | gym-tracker-bot.py:124 | `d.get(k)`; its partner `UserData.GetFindsFirstEntry` states what it finds |
| UserData.GetFindsFirstEntry | gym-tracker-bot.py:124 | `get` returns the value of the first entry for `k`, and `None` exactly when no entry has key `k` (lines 161 and 176 read the dictionary the same way) |
| UserData.GetAppend | gym-tracker-bot.py:108 | after a new key is appended, `get` finds the old values, the new key's value, and `None` elsewhere |
| UserData.UniqueKeysAppend | gym-tracker-bot.py:128 | appending an absent key keeps the keys distinct |
| UserData.Pop | gym-tracker-bot.py:81 | `pop(k)` on a present key removes one entry, leaves every other key's value, and leaves `k` absent; `UserData.PopKeepsOrder` adds that the other entries keep their order |
| UserData.Discard | gym-tracker-bot.py:80-83 | `if k in d: d.pop(k)` leaves other keys, removes `k`, and changes nothing when `k` is absent |
| UserData.PopKeepsOrder | gym-tracker-bot.py:81 | `pop(k)` removes the entry for `k` where it stands: the result is the entries before it followed by the entries after it, in their order, as `facts_to_str` later prints them |
| UserData.DiscardKeepsOrder | gym-tracker-bot.py:80-83 | the guarded pop of a present key keeps the order of the remaining entries |
| UserData.SetDefault | gym-tracker-bot.py:108 | `setdefault(k, v)` keeps a present value and otherwise appends `(k, v)` as the newest key; other keys are untouched |
| UserData.DiscardKeepsOthers | gym-tracker-bot.py:173-174 | removing one key keeps every other key's value and leaves the key absent |
| Catalog.Rows | gym-tracker-bot.py:60 | `[[x] for x in names]` is one single-button row per name, in order |
| Catalog.ExerciseMenu | gym-tracker-bot.py:57-60 | after every `/` is deleted, a catalog key gives one row per exercise in catalog order plus `New exercise` last; any other text raises `KeyError` with the slash-free key |
| Catalog.MenuIgnoresSlashes | gym-tracker-bot.py:59 | slashes anywhere in the category never change the menu |
| Catalog.NormaliseCategory | gym-tracker-bot.py:100 | the normalised category has no spaces and no capitals, and is never longer than the text |
| Catalog.NormalisePlainCommand | gym-tracker-bot.py:100 | a `/command` without spaces or capitals normalises to itself without the `/` |
| Catalog.CategoryCommandsAreKeys | gym-tracker-bot.py:99-100 | each of the four commands the table accepts (lines 224 and 232) normalises to a catalog key, so its menu lookup succeeds |
| Measurement.Span | gym-tracker-bot.py:150 | a greedy `\d*` or `\s*` splits the text into a maximal run of the class and the rest |
| Measurement.SpanUnique | gym-tracker-bot.py:150 | the greedy split is the only split into a run followed by a character outside the class |
| Measurement.WeightPrefix | gym-tracker-bot.py:150 | the greedy group 1, `\d+([.,]?\d*)?`, and what follows it: the two pieces make up the text, group 1 opens with the leading digits and holds only digits and separators, and what follows does not open with a digit |
| Measurement.Parse | gym-tracker-bot.py:150-153 | a parsed weight opens with a digit and holds no `,`, and the reps are a non-empty run of digits; its partners `ParseRender`, `ParseSound` and `ParseAcceptsFilter` state that it accepts exactly the filter's language and returns groups 1 and 3 |
| Measurement.ParseRender | gym-tracker-bot.py:150-153 | every text of the pattern's language parses to group 1 (with `,` made `.`) as the weight and group 3 as the reps |
| Measurement.ParseSound | gym-tracker-bot.py:150-153 | whatever parses is a text of the pattern's language, and the result is its groups |
| Measurement.ParseAcceptsFilter | gym-tracker-bot.py:242 | `Parse` succeeds exactly on the texts that `^(\d+([.,]?\d*)?)\s*x\s*(\d+)$` accepts |
| Measurement.ParseDecimalComma | gym-tracker-bot.py:152 | `82,5x8` gives weight `82.5` and reps `8` |
| Measurement.ParseSpaced | gym-tracker-bot.py:150-153 | `12 x 3` gives weight `12` and reps `3` |
| Measurement.ParseMissingWeight | gym-tracker-bot.py:242 | `x8` is not a measurement |
| Measurement.Confirmation | gym-tracker-bot.py:164 | the confirmation is, in order, the exercise name, `: `, the weight, `kg x `, the reps and ` times \n`: each piece is stated at its position |
| Facts.FactLines | gym-tracker-bot.py:73 | one `key - value` line per entry, in dictionary order |
| Facts.FactsToStr | gym-tracker-bot.py:74 | `"\n".join(facts).join(["\n", "\n"])` is the joined lines between two newlines |
| Facts.FactsToStrAppend | gym-tracker-bot.py:71-74 | a newer key adds its line at the end of the text |
| Facts.FactsToStrLines | gym-tracker-bot.py:71-74 | split at its newlines, the text is an empty line, the facts (or one empty line for an empty dictionary), and an empty line |
| Dispatch.CommandMatches | gym-tracker-bot.py:218 | `CommandHandler(command)`; its partner `Dispatch.CommandWithArguments` states which texts it accepts |
| Dispatch.CommandWithArguments | gym-tracker-bot.py:255 | a command typed in any case is accepted with nothing after it or with anything after it that does not continue the command's name and is not `@`; if more command characters follow it is not accepted |
| Dispatch.Matches | gym-tracker-bot.py:224-245 | the filters the table combines (`TEXT`, `COMMAND`, `Text([...])`, `Regex`, `&`, `\|`, `~`); `Dispatch.NotCommandNorDoneIsFreeText` and the `Select…` lemmas state what the table's combinations accept |
| Dispatch.CommandName | gym-tracker-bot.py:218 | the command name is the longest prefix of command characters |
| Dispatch.FirstMatch | gym-tracker-bot.py:216-251 | the position of the first handler that accepts the message, or none exactly when no handler accepts it |
| Dispatch.Select | gym-tracker-bot.py:216-251 | the conversation handler's choice; its partner `Dispatch.SelectIsFirstCandidate` states it is the first match among the candidates |
| Dispatch.SelectIsFirstCandidate | gym-tracker-bot.py:216-251 | trying the state's handlers and then the fallbacks picks the first handler, in that order, that accepts the message; with no conversation only the entry points are candidates |
| Dispatch.GymCoversEveryState | gym-tracker-bot.py:216-251 | the table built in `main` has handlers for each of the four states, one entry point (`/start`) and one fallback (`quit`) |
| Dispatch.NotCommandNorDoneIsFreeText | gym-tracker-bot.py:229 | `TEXT & ~(COMMAND \| Regex("^Done$"))` accepts exactly the texts that are neither a command nor `Done` |
| Dispatch.SelectWhenIdle | gym-tracker-bot.py:217-220 | with no conversation, only `/start` is taken |
| Dispatch.SelectChoosingCategory | gym-tracker-bot.py:222-225 | `CHOOSING_CATEGORY` takes the four category commands, then the `/quit` fallback |
| Dispatch.SelectChoosingExercise | gym-tracker-bot.py:226-233 | `CHOOSING_EXERCISE` tries `New exercise` first, then free text, then the category commands, then `/quit` |
| Dispatch.SelectAddingExercise | gym-tracker-bot.py:234-239 | `ADDING_EXERCISE` takes free text, then `/quit` |
| Dispatch.SelectDoingExercise | gym-tracker-bot.py:240-246 | `DOING_EXERCISE` takes a measurement first, then `Done`, then `/quit` |
| Dispatch.FirstCallbackOfFallbacks | gym-tracker-bot.py:248 | the only fallback is `/quit` |
| Handlers.ClearSession | gym-tracker-bot.py:79-83 | the guarded pops remove `category` and `exercise` and touch no other key |
| Handlers.WithCategory | gym-tracker-bot.py:102-108 | after pop, pop and `setdefault`, `category` holds the new value, `exercise` is gone, and other keys are untouched |
| Handlers.WithoutExercise | gym-tracker-bot.py:173-174 | `exercise` is gone; `category` and every other key are kept |
| Handlers.Start | gym-tracker-bot.py:76-91 | `start` clears the session, sends the welcome, and goes to `CHOOSING_CATEGORY` |
| Handlers.ChooseCategory | gym-tracker-bot.py:93-116 | `category` becomes the normalised text, which always replaces an old value; `exercise` is dropped; other keys stay. The result is the menu and `CHOOSING_EXERCISE` exactly when the lookup succeeds, else `KeyError` after the update |
| Handlers.ChooseExercise | gym-tracker-bot.py:119-137 | an exercise already stored is kept, else the text is stored; other keys stay; the prompt names the exercise; the next state is `DOING_EXERCISE` |
| Handlers.AddExercise | gym-tracker-bot.py:140-144 | `adding_exercise` asks for a name, changes nothing, and goes to `ADDING_EXERCISE` |
| Handlers.LogExercise | gym-tracker-bot.py:147-168 | `logging_exercise` leaves the dictionary unchanged, confirms `exercise: weightkg x reps times` with the parsed groups, offers the text and `Done` again, and stays in `DOING_EXERCISE` |
| Handlers.DoneExercise | gym-tracker-bot.py:170-184 | `exercise` is dropped and other keys are kept. The result is the category's menu and `CHOOSING_EXERCISE` exactly when a category with a menu is stored. Otherwise it is `AttributeError` with no category, or `KeyError` with an unknown one |
| Handlers.Quit | gym-tracker-bot.py:194-206 | `quit` clears the session, removes the keyboard, and ends the conversation |
| Handlers.ShowData | gym-tracker-bot.py:187-191 | `show_data` replies with the introduction and the dictionary's lines between newlines |
| Handlers.Run | gym-tracker-bot.py:216-251 | running the callback the table names: only `choosing_category` and `done_exercise` can raise, and `adding_exercise` and `logging_exercise` never change the dictionary |
| Handlers.Apply | gym-tracker-bot.py:216-251 | what the conversation handler stores: the callback's dictionary always, a reply exactly when it returned, and after a raise the exception with the state unchanged |
| Handlers.Next | gym-tracker-bot.py:253-256 | one text message: after a raise the state stays and nothing is answered, and a message that is not answered and raises nothing changes neither the state nor the dictionary |
| Handlers.SelectedLoggingParses | gym-tracker-bot.py:240-244 | the table hands `logging_exercise` only texts its filter accepts |
| Handlers.NextRunsSelected | gym-tracker-bot.py:253-256 | a message the conversation handler takes runs the selected callback, and its outcome becomes the effect |
| Handlers.SameCategory | gym-tracker-bot.py:43-48 | whether a catalog category is stored depends only on the `category` entry |
| Handlers.ChosenHasMenu | gym-tracker-bot.py:57-60 | a stored catalog key has a menu, so `done_exercise` does not raise |
| Handlers.KeyHasMenu | gym-tracker-bot.py:43-48 | every key of `pseudo_database` is slash-free and has a menu |
| Transitions.SelectIffAccepted | gym-tracker-bot.py:221-248 | the table takes a message exactly when it is listed for the current state |
| Transitions.UnmatchedIgnored | gym-tracker-bot.py:216-251 | a message no handler takes leaves the state and the dictionary unchanged; only `show_data` may answer it |
| Transitions.StartFromIdle | gym-tracker-bot.py:218 | `/start` with no conversation clears the session and goes to `CHOOSING_CATEGORY` with the welcome |
| Transitions.StartIsNotQuit | gym-tracker-bot.py:218 | `/start` is neither `/quit`, a category command, nor `/show_data` |
| Transitions.NoReentry | gym-tracker-bot.py:216-220 | `/start` during a conversation changes nothing and is not answered |
| Transitions.QuitIsOnlyFallback | gym-tracker-bot.py:248 | `/quit` matches no state handler and no other command |
| Transitions.QuitFromAnyState | gym-tracker-bot.py:248 | `/quit` from every state ends the conversation and clears `category` and `exercise` only |
| Transitions.QuitIgnoredWhenIdle | gym-tracker-bot.py:248 | `/quit` with no conversation changes nothing |
| Transitions.NewExerciseAsksForName | gym-tracker-bot.py:227 | `New exercise` in `CHOOSING_EXERCISE` goes to `ADDING_EXERCISE` without changing the dictionary |
| Transitions.FreeTextStartsExercise | gym-tracker-bot.py:228-238 | free text in `CHOOSING_EXERCISE` or `ADDING_EXERCISE` stores the text as the newest key `exercise` and goes to `DOING_EXERCISE` |
| Transitions.CategoryCommandSelected | gym-tracker-bot.py:232 | a category command is taken by `choosing_category` in `CHOOSING_CATEGORY` and `CHOOSING_EXERCISE`, and names a catalog key |
| Transitions.CategoryReselected | gym-tracker-bot.py:102-108 | reselecting replaces the category, drops the exercise, keeps other keys, resends the menu, and goes to `CHOOSING_EXERCISE` |
| Transitions.MeasurementLogged | gym-tracker-bot.py:147-168 | a measurement in `DOING_EXERCISE` is confirmed; state and dictionary are unchanged |
| Transitions.DoneSelected | gym-tracker-bot.py:245 | `Done` in `DOING_EXERCISE` is not a measurement and selects `done_exercise` |
| Transitions.DoneAppliedToSession | gym-tracker-bot.py:173-176 | `done_exercise` drops only the exercise and goes to `CHOOSING_EXERCISE` |
| Transitions.DoneResendsMenu | gym-tracker-bot.py:176-182 | after `Done` the stored category's menu is sent again |
| Transitions.DoneReturnsToMenu | gym-tracker-bot.py:170-184 | `Done` returns to the menu of the stored category with only the exercise removed |
| Transitions.InvariantPreserved | gym-tracker-bot.py:216-251 | every message keeps the invariant (a catalog key is stored after a category was chosen; `exercise` is stored exactly in `DOING_EXERCISE`), and from such a session no callback raises |
| Transitions.ReplayKeepsInvariant | gym-tracker-bot.py:216-251 | any sequence of messages keeps the invariant |
| Transitions.Replay | gym-tracker-bot.py:253-256 | the state and dictionary after a sequence of messages; its partners `ReplayConcat` and `ReplayKeepsInvariant` state that it composes over concatenation and keeps the invariant |
| Transitions.ReachableSessions | gym-tracker-bot.py:122-128 | in every session reachable from `/start`, the menu states hold a catalog key and `exercise` is present exactly in `DOING_EXERCISE` |
| Transitions.ReachedNameIsText | gym-tracker-bot.py:122-128 | in reachable sessions the "already started" branch of `choosing_exercise` is never taken: free text is stored as the exercise |
| Transitions.ReplayConcat | gym-tracker-bot.py:216-251 | replaying two sequences in turn is replaying their concatenation |
| Transitions.NamedExerciseStarted | gym-tracker-bot.py:234-239 | `New exercise` and a name store only the name as the exercise and start logging |
| Transitions.AddedThenDiscarded | gym-tracker-bot.py:173-174 | adding `exercise` and dropping it again gives back the dictionary |
| Transitions.NewExerciseNotKept | gym-tracker-bot.py:140-144 | `New exercise`, a name, then `Done` return to `CHOOSING_EXERCISE` with the dictionary as before, so the name is kept nowhere |
| Bot.Session.constructor | gym-tracker-bot.py:216-220 | a new user has no conversation and an empty dictionary |
| Bot.Session.DiscardKey | gym-tracker-bot.py:80-83 | the in-place guarded `pop` leaves the dictionary `Discard` describes |
| Bot.Session.SetDefaultKey | gym-tracker-bot.py:108 | the in-place `setdefault` leaves the dictionary `SetDefault` describes |
| Bot.Session.Start | gym-tracker-bot.py:76-91 | the in-place `start` leaves the dictionary and result of `Handlers.Start` |
| Bot.Session.ChooseCategory | gym-tracker-bot.py:93-116 | the in-place `choosing_category` matches `Handlers.ChooseCategory`, including the dictionary left behind by a `KeyError` |
| Bot.Session.ChooseExercise | gym-tracker-bot.py:119-137 | the in-place `choosing_exercise` matches `Handlers.ChooseExercise` |
| Bot.Session.AddExercise | gym-tracker-bot.py:140-144 | `adding_exercise` changes nothing and matches `Handlers.AddExercise` |
| Bot.Session.LogExercise | gym-tracker-bot.py:147-168 | `logging_exercise` changes nothing and matches `Handlers.LogExercise` |
| Bot.Session.DoneExercise | gym-tracker-bot.py:170-184 | the in-place `done_exercise` matches `Handlers.DoneExercise`, including its two exceptions |
| Bot.Session.Quit | gym-tracker-bot.py:194-206 | the in-place `quit` matches `Handlers.Quit` |
| Bot.Session.RunCallback | gym-tracker-bot.py:216-251 | running the callback the table names matches `Handlers.Run` |
| Bot.Session.HandleUpdate | gym-tracker-bot.py:253-256 | one message updates the stored state and dictionary as `Handlers.Next` says; from a valid session it stays valid and nothing raises |

## Left out

- Telegram transport (`reply_text`, `ReplyKeyboardMarkup`, `ReplyKeyboardRemove`, `Application`, `run_polling`, async/await) is I/O. A reply is returned as its text and keyboard rows; the `one_time_keyboard` flag is not modelled.
- `PicklePersistence`, the logging configuration and the bot token (lines 33-39, 212-213) are external I/O and configuration.
- The unused `reply_keyboard`/`markup` (lines 50-55) have no effect on behaviour.
- `update_exercises_filter` (lines 62-69) is never called. It would raise `TypeError`, because `"|".join` is applied to the list of single-item lists.
- Only one chat per user is modelled. The conversation handler keeps the defaults `per_chat=True, per_user=True`, so a conversation belongs to a (chat, user) pair, while `context.user_data` belongs to the user alone. One user with conversations in two chats therefore has two conversations writing one dictionary. For example, `/start` in a second chat pops `category`, and `Done` in the first chat then raises `AttributeError` in `get_list_exercises_in_category`. `Transitions.InvariantPreserved`, `Transitions.ReachableSessions` and the "nothing raises" of `Bot.Session.HandleUpdate` hold only for one chat per user.
- Only new text messages are modelled. `run_polling(allowed_updates=Update.ALL_TYPES)` also delivers edited messages, and the handlers' filters accept them by default. The callbacks then read `update.message`, which is `None` for an edit, and raise `AttributeError` at their first use of it. Dictionary changes made before that point are kept; for example `done_exercise` has already popped `exercise`, which leaves `DOING_EXERCISE` with no exercise stored. The no-raise results above hold only for new messages.
- Text.IsDigit: `\d` covers only the ASCII digits, not every Unicode decimal digit Python accepts.
- Text.ToLower: lowers only the ASCII letters; Python's `str.lower` also lowers other alphabets. The four commands the table accepts are ASCII, so the reachable behaviour is unaffected.
- Dispatch.CommandMatches: a command followed by `@botname` is not accepted, because the bot's username is not modelled. Telegram's command entities are approximated by a leading `/` and command characters.
- Handlers.LogExercise: requires a text that the measurement filter accepts. The table only ever passes such a text (`Handlers.SelectedLoggingParses`). The handler's unanchored `re.search` then finds the same groups as the anchored filter, so the model reads them with the anchored `Parse`.
- Weight and reps are kept as strings, as in the source. No number conversion is modelled.
