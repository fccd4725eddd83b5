/**
 * The fixed exercise catalog `pseudo_database`, the exercise menu built from
 * it, and the normalisation that turns a category command into a catalog key.
 */
module Catalog {
  import opened Wrappers
  import Text

  /** `pseudo_database`: each category key with its exercises, in listed order. */
  const Database: map<string, seq<string>> := map[
    "collective" := ["steps", "pilates"],
    "muscleupper" := ["benchpress", "shoulderpress"],
    "musclelower" := ["squat", "deadlift"],
    "cardio" := ["running", "cycle"]
  ]

  /** The last button of every exercise menu. */
  const NewExercise: string := "New exercise"

  /** The only texts the conversation table accepts as a category choice. */
  const CategoryCommands: seq<string> := ["/collective", "/muscleupper", "/musclelower", "/cardio"]

  /** `[[x] for x in names]`: one single-button keyboard row per name, in order. */
  function Rows(names: seq<string>): (rows: seq<seq<string>>)
    ensures |rows| == |names|
    ensures forall i :: 0 <= i < |names| ==> rows[i] == [names[i]]
  {
    if names == [] then [] else [[names[0]]] + Rows(names[1..])
  }

  /**
   * `get_list_exercises_in_category`: every `/` is deleted from the category,
   * which is then looked up; a missing key raises `KeyError`, modelled as a
   * Failure carrying that key.
   */
  function ExerciseMenu(category: string): (r: Result<seq<seq<string>>, string>)
    ensures r.Failure? <==> Text.RemoveAll(category, '/') !in Database
    ensures r.Failure? ==> r.error == Text.RemoveAll(category, '/')
    ensures r.Success? ==>
              var exercises := Database[Text.RemoveAll(category, '/')];
              && |r.value| == |exercises| + 1
              && (forall i :: 0 <= i < |exercises| ==> r.value[i] == [exercises[i]])
              && r.value[|exercises|] == [NewExercise]
  {
    var key := Text.RemoveAll(category, '/');
    if key in Database then Success(Rows(Database[key]) + [[NewExercise]]) else Failure(key)
  }

  /** Slashes anywhere in the category do not change the menu. */
  lemma MenuIgnoresSlashes(category: string)
    ensures ExerciseMenu(category) == ExerciseMenu(Text.RemoveAll(category, '/'))
  {
    var key := Text.RemoveAll(category, '/');
    assert Text.RemoveAll(key, '/') == key;
  }

  /** `text.lower().replace(" ", "").removeprefix("/")` of `choosing_category`. */
  function NormaliseCategory(text: string): (key: string)
    ensures ' ' !in key
    ensures forall i :: 0 <= i < |key| ==> !Text.IsUpper(key[i])
    ensures |key| <= |text|
  {
    var lowered := Text.ToLower(text);
    var compact := Text.RemoveAll(lowered, ' ');
    LowerStaysLower(text, compact);
    SuffixKeepsCharacters(compact, Text.RemovePrefix(compact, "/"));
    Text.RemovePrefix(compact, "/")
  }

  lemma LowerStaysLower(text: string, compact: string)
    requires compact == Text.RemoveAll(Text.ToLower(text), ' ')
    ensures forall i :: 0 <= i < |compact| ==> !Text.IsUpper(compact[i])
  {
    var lowered := Text.ToLower(text);
    forall i | 0 <= i < |compact| ensures !Text.IsUpper(compact[i]) {
      var j :| 0 <= j < |lowered| && lowered[j] == compact[i];
    }
  }

  lemma SuffixKeepsCharacters(s: string, r: string)
    requires r == Text.RemovePrefix(s, "/")
    ensures forall i :: 0 <= i < |r| ==> r[i] in s
    ensures ' ' in r ==> ' ' in s
  {
    assert forall i :: 0 <= i < |r| ==> r[i] == s[i + |s| - |r|];
  }

  /** A command free of spaces and capitals normalises to itself without its leading `/`. */
  lemma {:induction false} NormalisePlainCommand(command: string)
    requires |command| > 0 && command[0] == '/' && ' ' !in command
    requires forall i :: 0 <= i < |command| ==> !Text.IsUpper(command[i])
    ensures NormaliseCategory(command) == command[1..]
  {
    Text.ToLowerOfLower(command);
    assert "/" <= command;
  }

  /** Each of the four category commands normalises to a catalog key, so the menu lookup cannot fail. */
  lemma {:induction false} CategoryCommandsAreKeys(command: string)
    requires command in CategoryCommands
    ensures NormaliseCategory(command) == command[1..]
    ensures NormaliseCategory(command) in Database
    ensures ExerciseMenu(NormaliseCategory(command)).Success?
  {
    assert command == "/collective" || command == "/muscleupper" || command == "/musclelower" || command == "/cardio";
    if command == "/collective" {
      CollectiveIsKey(command);
    } else if command == "/muscleupper" {
      MuscleUpperIsKey(command);
    } else if command == "/musclelower" {
      MuscleLowerIsKey(command);
    } else {
      CardioIsKey(command);
    }
  }

  // The four commands one at a time: each literal's characters are checked in a proof of its own.

  lemma CollectiveIsKey(command: string)
    requires command == "/collective"
    ensures NormaliseCategory(command) == command[1..]
    ensures command[1..] in Database
    ensures ExerciseMenu(NormaliseCategory(command)).Success?
  {
    CommandIsKey(command);
  }

  lemma MuscleUpperIsKey(command: string)
    requires command == "/muscleupper"
    ensures NormaliseCategory(command) == command[1..]
    ensures command[1..] in Database
    ensures ExerciseMenu(NormaliseCategory(command)).Success?
  {
    CommandIsKey(command);
  }

  lemma MuscleLowerIsKey(command: string)
    requires command == "/musclelower"
    ensures NormaliseCategory(command) == command[1..]
    ensures command[1..] in Database
    ensures ExerciseMenu(NormaliseCategory(command)).Success?
  {
    CommandIsKey(command);
  }

  lemma CardioIsKey(command: string)
    requires command == "/cardio"
    ensures NormaliseCategory(command) == command[1..]
    ensures command[1..] in Database
    ensures ExerciseMenu(NormaliseCategory(command)).Success?
  {
    CommandIsKey(command);
  }

  lemma CommandIsKey(command: string)
    requires |command| > 0 && command[0] == '/' && ' ' !in command
    requires forall i :: 0 <= i < |command| ==> !Text.IsUpper(command[i])
    requires '/' !in command[1..] && command[1..] in Database
    ensures NormaliseCategory(command) == command[1..]
    ensures command[1..] in Database
    ensures ExerciseMenu(NormaliseCategory(command)).Success?
  {
    NormalisePlainCommand(command);
  }
}
