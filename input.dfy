/** class Input: per-frame keyboard and mouse bookkeeping over a stream of
    window events. */
module Inputs {

  /** The events update() distinguishes; a key event carries the key's name
      as the windowing library reports it. */
  datatype Event =
    | Quit
    | KeyPress(key: string)
    | KeyRelease(key: string)
    | MouseButtonDown(button: int)
    | MouseButtonUp(button: int)
    | OtherEvent

  const BUTTON_LEFT: int := 1
  const BUTTON_MIDDLE: int := 2
  const BUTTON_RIGHT: int := 3

  /** A snapshot of the fields of an Input. */
  datatype InputState = InputState(quit: bool, keysDown: seq<string>, keysHeld: seq<string>,
                                   keysUp: seq<string>, mouseButtons: map<string, bool>)

  /** No name occurs twice. */
  predicate Distinct(s: seq<string>)
  {
    forall i, j :: 0 <= i < j < |s| ==> s[i] != s[j]
  }

  /** The flag a button number sets, if any. */
  function ButtonName(b: int): (name: Option<string>)
    ensures name.Some? <==> b == BUTTON_LEFT || b == BUTTON_MIDDLE || b == BUTTON_RIGHT
  {
    if b == BUTTON_LEFT then Some("left")
    else if b == BUTTON_MIDDLE then Some("middle")
    else if b == BUTTON_RIGHT then Some("right")
    else None
  }

  datatype Option<T> = None | Some(value: T)

  /** updateMouse's three independent tests, one after another. */
  function MouseAfter(m: map<string, bool>, b: int, d: bool): map<string, bool>
  {
    var afterLeft := if b == BUTTON_LEFT then m["left" := d] else m;
    var afterMiddle := if b == BUTTON_MIDDLE then afterLeft["middle" := d] else afterLeft;
    if b == BUTTON_RIGHT then afterMiddle["right" := d] else afterMiddle
  }

  /** updateMouse sets the flag of its button and nothing else; an unknown
      button changes nothing. */
  lemma MouseAfterSetsOnlyItsFlag(m: map<string, bool>, b: int, d: bool)
    ensures ButtonName(b).Some? ==> MouseAfter(m, b, d) == m[ButtonName(b).value := d]
    ensures ButtonName(b).None? ==> MouseAfter(m, b, d) == m
    ensures forall name :: name in m && Some(name) != ButtonName(b) ==>
      name in MouseAfter(m, b, d) && MouseAfter(m, b, d)[name] == m[name]
  {
  }

  /** s without its first occurrence of k (all of s when k is absent). */
  function RemoveFirst(s: seq<string>, k: string): (r: seq<string>)
    ensures k in s ==> |r| == |s| - 1
    ensures k !in s ==> r == s
    ensures multiset(r) == multiset(s) - multiset{k}
  {
    if s == [] then []
    else
      assert s == [s[0]] + s[1..];
      if s[0] == k then s[1..] else [s[0]] + RemoveFirst(s[1..], k)
  }

  /** The effect of one event in update()'s loop. */
  function Step(s: InputState, e: Event): InputState
  {
    match e
    case Quit => s.(quit := true)
    case KeyPress(k) =>
      if k in s.keysHeld then s
      else s.(keysDown := s.keysDown + [k], keysHeld := s.keysHeld + [k])
    case KeyRelease(k) =>
      if k in s.keysHeld then s.(keysHeld := RemoveFirst(s.keysHeld, k), keysUp := s.keysUp + [k])
      else s
    case MouseButtonDown(b) => s.(mouseButtons := MouseAfter(s.mouseButtons, b, true))
    case MouseButtonUp(b) => s.(mouseButtons := MouseAfter(s.mouseButtons, b, false))
    case OtherEvent => s
  }

  /** resetStates: this frame's presses and releases are forgotten. */
  function Reset(s: InputState): InputState
  {
    s.(keysDown := [], keysUp := [])
  }

  /** The events of one frame applied in order. */
  function Run(s: InputState, events: seq<Event>): InputState
  {
    if events == [] then s else Step(Run(s, events[..|events| - 1]), events[|events| - 1])
  }

  /** The state a new Input starts in. */
  function Initial(): InputState
  {
    InputState(false, [], [], [], map["left" := false, "right" := false, "middle" := false])
  }

  class Input {
    var quit: bool
    var keysDown: seq<string>
    var keysHeld: seq<string>
    var keysUp: seq<string>
    var mouseButtons: map<string, bool>

    function State(): InputState
      reads this
    {
      InputState(quit, keysDown, keysHeld, keysUp, mouseButtons)
    }

    /** All three mouse flags start false, nothing is pressed and quit is
        unset. */
    constructor()
      ensures State() == Initial()
      ensures mouseButtons.Keys == {"left", "right", "middle"}
      ensures forall b :: b in mouseButtons ==> !mouseButtons[b]
    {
      quit := false;
      keysDown, keysHeld, keysUp := [], [], [];
      mouseButtons := map["left" := false, "right" := false, "middle" := false];
    }

    method ResetStates()
      modifies this
      ensures State() == Reset(old(State()))
    {
      keysDown := [];
      keysUp := [];
    }

    method UpdateMouse(b: int, d: bool)
      modifies this
      ensures State() == old(State()).(mouseButtons := MouseAfter(old(mouseButtons), b, d))
    {
      if b == BUTTON_LEFT {
        mouseButtons := mouseButtons["left" := d];
      }
      if b == BUTTON_MIDDLE {
        mouseButtons := mouseButtons["middle" := d];
      }
      if b == BUTTON_RIGHT {
        mouseButtons := mouseButtons["right" := d];
      }
    }

    /** The body of update()'s loop for one event. */
    method HandleEvent(e: Event)
      modifies this
      ensures State() == Step(old(State()), e)
    {
      match e {
        case Quit =>
          quit := true;
        case KeyPress(k) =>
          var i := FindKey(keysHeld, k);
          if i == |keysHeld| {
            keysDown := keysDown + [k];
            keysHeld := keysHeld + [k];
          }
        case KeyRelease(k) =>
          var i := FindKey(keysHeld, k);
          if i != |keysHeld| {
            EraseIsRemoveFirst(keysHeld, k, i);
            keysHeld := keysHeld[..i] + keysHeld[i + 1..];
            keysUp := keysUp + [k];
          }
        case MouseButtonDown(b) =>
          UpdateMouse(b, true);
        case MouseButtonUp(b) =>
          UpdateMouse(b, false);
        case OtherEvent =>
      }
    }

    /** update(): reset, then consume every pending event in order. */
    method Update(events: seq<Event>)
      modifies this
      ensures State() == Run(Reset(old(State())), events)
    {
      ResetStates();
      ghost var start := State();
      var i := 0;
      while i < |events|
        invariant 0 <= i <= |events|
        invariant State() == Run(start, events[..i])
      {
        assert events[..i + 1][..i] == events[..i];
        HandleEvent(events[i]);
        i := i + 1;
      }
      assert events[..i] == events;
    }

    method ShouldQuit() returns (r: bool)
      ensures r == quit
    {
      r := quit;
    }

    /** keyDown: was k pressed this frame. */
    method KeyDown(k: string) returns (r: bool)
      ensures r <==> k in keysDown
    {
      var i := FindKey(keysDown, k);
      r := i != |keysDown|;
    }

    /** keyUp: was k released this frame. */
    method KeyUp(k: string) returns (r: bool)
      ensures r <==> k in keysUp
    {
      var i := FindKey(keysUp, k);
      r := i != |keysUp|;
    }

    /** keyHeld: is k down now. */
    method KeyHeld(k: string) returns (r: bool)
      ensures r <==> k in keysHeld
    {
      var i := FindKey(keysHeld, k);
      r := i != |keysHeld|;
    }

    /** getMouseStates: a copy of the three button flags. */
    method GetMouseStates() returns (r: map<string, bool>)
      ensures r == mouseButtons
    {
      r := mouseButtons;
    }

    /** getKeysDown: the keys pressed this frame, in order. */
    method GetKeysDown() returns (r: seq<string>)
      ensures r == keysDown
    {
      r := keysDown;
    }
  }

  /** std::find: the first index holding k, or |s| when there is none. */
  method FindKey(s: seq<string>, k: string) returns (i: nat)
    ensures i <= |s|
    ensures i < |s| ==> s[i] == k
    ensures forall j :: 0 <= j < i ==> s[j] != k
  {
    i := 0;
    while i < |s| && s[i] != k
      invariant 0 <= i <= |s|
      invariant forall j :: 0 <= j < i ==> s[j] != k
    {
      i := i + 1;
    }
  }

  /** Erasing the first occurrence found by std::find. */
  lemma {:induction false} EraseIsRemoveFirst(s: seq<string>, k: string, i: nat)
    requires i < |s| && s[i] == k && forall j :: 0 <= j < i ==> s[j] != k
    ensures s[..i] + s[i + 1..] == RemoveFirst(s, k)
    decreases i
  {
    if i > 0 {
      var t := s[1..];
      assert forall j :: 0 <= j < i - 1 ==> t[j] == s[j + 1];
      EraseIsRemoveFirst(t, k, i - 1);
      assert s[0] != k;
      EraseAfterHead(s, i);
    }
  }

  lemma EraseAfterHead(s: seq<string>, i: nat)
    requires 0 < i < |s|
    ensures s[..i] + s[i + 1..] == [s[0]] + (s[1..][..i - 1] + s[1..][i..])
  {
    assert s[..i] == [s[0]] + s[1..][..i - 1];
    assert s[i + 1..] == s[1..][i..];
  }

  /** A held key is never listed twice, whatever the events. */
  lemma StepKeepsHeldDistinct(s: InputState, e: Event)
    requires Distinct(s.keysHeld)
    ensures Distinct(Step(s, e).keysHeld)
  {
    if e.KeyRelease? && e.key in s.keysHeld {
      RemoveFirstKeepsDistinct(s.keysHeld, e.key);
    }
  }

  lemma {:induction false} RemoveFirstKeepsDistinct(s: seq<string>, k: string)
    requires Distinct(s)
    ensures Distinct(RemoveFirst(s, k))
    ensures k !in RemoveFirst(s, k)
  {
    if s != [] {
      assert s == [s[0]] + s[1..];
      assert s[0] !in s[1..];
      assert Distinct(s[1..]);
      if s[0] != k {
        RemoveFirstKeepsDistinct(s[1..], k);
        var r := RemoveFirst(s[1..], k);
        RemoveFirstMembers(s[1..], k, s[0]);
        DistinctCons(s[0], r);
      }
    }
  }

  /** Removing k keeps membership of every other name. */
  lemma {:induction false} RemoveFirstMembers(s: seq<string>, k: string, x: string)
    requires x != k
    ensures x in RemoveFirst(s, k) <==> x in s
  {
    if s != [] && s[0] != k {
      RemoveFirstMembers(s[1..], k, x);
      assert s == [s[0]] + s[1..];
    }
  }

  lemma DistinctCons(a: string, r: seq<string>)
    requires Distinct(r) && a !in r
    ensures Distinct([a] + r)
  {
    var t := [a] + r;
    forall i, j | 0 <= i < j < |t|
      ensures t[i] != t[j]
    {
      if i > 0 {
        assert t[i] == r[i - 1] && t[j] == r[j - 1];
      } else {
        assert t[j] == r[j - 1];
      }
    }
  }

  lemma {:induction false} RunKeepsHeldDistinct(s: InputState, events: seq<Event>)
    requires Distinct(s.keysHeld)
    ensures Distinct(Run(s, events).keysHeld)
  {
    if events != [] {
      RunKeepsHeldDistinct(s, events[..|events| - 1]);
      StepKeepsHeldDistinct(Run(s, events[..|events| - 1]), events[|events| - 1]);
    }
  }

  /** A press makes its key held; a release of a held key makes it not held;
      no other key's held status changes. */
  lemma PressAndRelease(s: InputState, k: string, other: string)
    requires Distinct(s.keysHeld) && other != k
    ensures k in Step(s, KeyPress(k)).keysHeld
    ensures k !in Step(s, KeyRelease(k)).keysHeld
    ensures other in Step(s, KeyPress(k)).keysHeld <==> other in s.keysHeld
    ensures other in Step(s, KeyRelease(k)).keysHeld <==> other in s.keysHeld
    ensures k !in s.keysHeld ==> Step(s, KeyPress(k)).keysDown == s.keysDown + [k]
    ensures k in s.keysHeld ==> Step(s, KeyPress(k)) == s
    ensures k in s.keysHeld ==> Step(s, KeyRelease(k)).keysUp == s.keysUp + [k]
    ensures k !in s.keysHeld ==> Step(s, KeyRelease(k)) == s
  {
    RemoveFirstKeepsDistinct(s.keysHeld, k);
    RemoveFirstMembers(s.keysHeld, k, other);
  }

  /** Once set, quit stays set; a Quit event among the events sets it. */
  lemma {:induction false} QuitIsSticky(s: InputState, events: seq<Event>)
    ensures s.quit ==> Run(s, events).quit
    ensures Quit in events ==> Run(s, events).quit
  {
    if events != [] {
      var init := events[..|events| - 1];
      QuitIsSticky(s, init);
      if Quit in events && events[|events| - 1] != Quit {
        assert Quit in init;
      }
    }
  }

  /** Resetting keeps what is held, the mouse flags and quit. */
  lemma ResetKeepsHeld(s: InputState)
    ensures Reset(s).keysHeld == s.keysHeld && Reset(s).mouseButtons == s.mouseButtons
    ensures Reset(s).quit == s.quit && Reset(s).keysDown == [] && Reset(s).keysUp == []
  {
  }

  /** The three mouse flags exist in every reachable state. */
  lemma {:induction false} RunKeepsMouseFlags(s: InputState, events: seq<Event>)
    requires s.mouseButtons.Keys == {"left", "right", "middle"}
    ensures Run(s, events).mouseButtons.Keys == {"left", "right", "middle"}
  {
    if events != [] {
      RunKeepsMouseFlags(s, events[..|events| - 1]);
      StepKeepsMouseFlags(Run(s, events[..|events| - 1]), events[|events| - 1]);
    }
  }

  lemma StepKeepsMouseFlags(s: InputState, e: Event)
    requires s.mouseButtons.Keys == {"left", "right", "middle"}
    ensures Step(s, e).mouseButtons.Keys == {"left", "right", "middle"}
  {
    if e.MouseButtonDown? || e.MouseButtonUp? {
      MouseAfterKeepsKeys(s.mouseButtons, e.button, e.MouseButtonDown?);
    }
  }

  lemma MouseAfterKeepsKeys(m: map<string, bool>, b: int, d: bool)
    requires m.Keys == {"left", "right", "middle"}
    ensures MouseAfter(m, b, d).Keys == m.Keys
  {
  }
}
