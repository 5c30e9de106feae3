/** class Menus, without layout: which menu is showing, the name typed on the
    high-score screen, and how many scores the high-score menu lists. */
module MenuSystem {

  /** The longest name the letter keys can build. */
  const NAME_LIMIT: nat := 20

  /** The most scores the high-score menu lists. */
  const SHOWN_SCORES: nat := 10

  /** The seven menu flags and the one the game opens on. */
  function InitialMenuFlags(): (flags: map<string, bool>)
    ensures flags.Keys == {"mainMenu", "pauseMenu", "controls", "volume", "highScore", "gameOver", "highscoreRecording"}
    ensures forall f :: f in flags ==> (flags[f] <==> f == "mainMenu")
  {
    map["mainMenu" := true, "pauseMenu" := false, "controls" := false, "volume" := false,
        "highScore" := false, "gameOver" := false, "highscoreRecording" := false]
  }

  /** handleTextInput's edit of the name for one key. */
  function EditName(name: string, key: string): (edited: string)
  {
    if key == "Backspace" then (if name != [] then name[..|name| - 1] else name)
    else if key == "Space" then name + " "
    else if |key| == 1 && |name| < NAME_LIMIT then name + key
    else name
  }

  /** The edits of a sequence of keys, in order. */
  function EditAll(name: string, keys: seq<string>): (edited: string)
  {
    if keys == [] then name else EditName(EditAll(name, keys[..|keys| - 1]), keys[|keys| - 1])
  }

  lemma EditAllSnoc(name: string, keys: seq<string>, k: string)
    ensures EditAll(name, keys + [k]) == EditName(EditAll(name, keys), k)
  {
    assert (keys + [k])[..|keys|] == keys;
  }

  /** What each key does: Backspace drops the last character of a non-empty
      name, Space always adds a blank, a one-character key is added only
      below the limit, and anything else is ignored. */
  lemma EditNameEffect(name: string, key: string)
    ensures key == "Backspace" && name != [] ==> EditName(name, key) + [name[|name| - 1]] == name
    ensures key == "Backspace" && name == [] ==> EditName(name, key) == []
    ensures key == "Space" ==> EditName(name, key) == name + " "
    ensures key != "Backspace" && key != "Space" && |key| == 1 && |name| < NAME_LIMIT ==>
      EditName(name, key) == name + key && |EditName(name, key)| == |name| + 1
    ensures key != "Backspace" && key != "Space" && (|key| != 1 || |name| >= NAME_LIMIT) ==>
      EditName(name, key) == name
  {
    if key == "Backspace" && name != [] {
      assert name == name[..|name| - 1] + [name[|name| - 1]];
    }
  }

  /** Without Space, a name within the limit stays within it. */
  lemma EditNameKeepsLimit(name: string, key: string)
    requires |name| <= NAME_LIMIT && key != "Space"
    ensures |EditName(name, key)| <= NAME_LIMIT
  {
  }

  /** ... for any sequence of keys without Space; only Space goes past it. */
  lemma {:induction false} EditAllKeepsLimit(name: string, keys: seq<string>)
    requires |name| <= NAME_LIMIT
    requires forall i :: 0 <= i < |keys| ==> keys[i] != "Space"
    ensures |EditAll(name, keys)| <= NAME_LIMIT
  {
    if keys != [] {
      EditAllKeepsLimit(name, keys[..|keys| - 1]);
      EditNameKeepsLimit(EditAll(name, keys[..|keys| - 1]), keys[|keys| - 1]);
    }
  }

  /** Space is not bound by the limit: any name grows by one. */
  lemma SpacePassesLimit(name: string)
    ensures |EditName(name, "Space")| == |name| + 1
  {
  }

  class Menus {
    var gameStates: map<string, bool>
    var currentNameInput: string

    /** The menu flags and the name buffer as the constructor leaves them. */
    constructor()
      ensures gameStates == InitialMenuFlags() && currentNameInput == ""
    {
      gameStates := InitialMenuFlags();
      currentNameInput := "";
    }

    method HandleTextInput(key: string)
      modifies this
      ensures currentNameInput == EditName(old(currentNameInput), key)
      ensures gameStates == old(gameStates)
    {
      if key == "Backspace" {
        if currentNameInput != [] {
          currentNameInput := currentNameInput[..|currentNameInput| - 1];
        }
      } else if key == "Space" {
        currentNameInput := currentNameInput + " ";
      } else if |key| == 1 && |currentNameInput| < NAME_LIMIT {
        currentNameInput := currentNameInput + key;
      }
    }

    method GetCurrentNameInput() returns (name: string)
      ensures name == currentNameInput
    {
      name := currentNameInput;
    }

    method ClearCurrentNameInput()
      modifies this
      ensures currentNameInput == "" && gameStates == old(gameStates)
    {
      currentNameInput := "";
    }

    /** The Back button of the controls menu. */
    method BackFromControls(fromPauseMenu: bool)
      modifies this
      ensures gameStates == ReturnFlags(old(gameStates), "controls", fromPauseMenu)
      ensures currentNameInput == old(currentNameInput)
    {
      gameStates := gameStates["controls" := false];
      if fromPauseMenu {
        gameStates := gameStates["pauseMenu" := true];
      } else {
        gameStates := gameStates["mainMenu" := true];
      }
    }

    /** The Back button of the volume menu. */
    method BackFromVolume(fromPauseMenu: bool)
      modifies this
      ensures gameStates == ReturnFlags(old(gameStates), "volume", fromPauseMenu)
      ensures currentNameInput == old(currentNameInput)
    {
      gameStates := gameStates["volume" := false];
      if fromPauseMenu {
        gameStates := gameStates["pauseMenu" := true];
      } else {
        gameStates := gameStates["mainMenu" := true];
      }
    }

    /** The Back button of the high-score menu. */
    method BackFromHighScore()
      modifies this
      ensures gameStates == old(gameStates)["highScore" := false]["mainMenu" := true]
      ensures currentNameInput == old(currentNameInput)
    {
      gameStates := gameStates["highScore" := false];
      gameStates := gameStates["mainMenu" := true];
    }
  }

  /** A Back lambda: its own flag off, then the menu it returns to on. */
  function ReturnFlags(flags: map<string, bool>, own: string, fromPauseMenu: bool): (after: map<string, bool>)
  {
    flags[own := false][(if fromPauseMenu then "pauseMenu" else "mainMenu") := true]
  }

  /** Back turns its own menu off and exactly the menu it came from on; every
      other flag keeps its value. */
  lemma ReturnFlagsEffect(flags: map<string, bool>, own: string, fromPauseMenu: bool)
    requires own != "pauseMenu" && own != "mainMenu"
    ensures var after := ReturnFlags(flags, own, fromPauseMenu);
      && after.Keys == flags.Keys + {own, if fromPauseMenu then "pauseMenu" else "mainMenu"}
      && !after[own]
      && (fromPauseMenu ==> after["pauseMenu"])
      && (!fromPauseMenu ==> after["mainMenu"])
      && forall f :: f in flags && f != own && f != "pauseMenu" && f != "mainMenu" ==> after[f] == flags[f]
  {
  }

  /** The labels highscoreMenu adds: the first min(10, |list|) entries. */
  method HighscoreLabels(list: seq<string>) returns (labels: seq<string>)
    ensures |labels| == if |list| < SHOWN_SCORES then |list| else SHOWN_SCORES
    ensures labels <= list
  {
    var maxScores := if SHOWN_SCORES < |list| then SHOWN_SCORES else |list|;
    labels := [];
    var i := 0;
    while i < maxScores
      invariant 0 <= i <= maxScores
      invariant labels == list[..i]
    {
      labels := labels + [list[i]];
      i := i + 1;
    }
  }
}
