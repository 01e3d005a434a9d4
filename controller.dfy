/**
 The input loop of the menu controller: one step per line the user types,
 and the loop that repeats steps until Quit is chosen.
 */
module Controller {
  import opened Options
  import opened PyText
  import opened MenuModel

  datatype State = Prompting | Terminated

  /** What running a command through the shell gave back: the child's exit
      status, or an exception raised before it could run. */
  datatype RunResult = Exited(status: int) | Raised(message: string)

  /** What the controller reports after a dispatch. */
  datatype Outcome = Success | NonZero(code: int) | OtherError(message: string)

  /** What one step of the loop did. */
  datatype Event = Exiting | InvalidChoice | Ran(command: string, outcome: Outcome)

  /** One round of interaction: the line typed at the prompt, and what the
      shell would give back if that line dispatched a command. */
  datatype Turn = Turn(line: string, result: RunResult)

  datatype Transition = Transition(next: State, event: Event)

  /** How a session ends: by Quit; by the ValueError the menu screen raises
      on a key `int` cannot convert; or by running out of input lines. */
  datatype Ending = Quit | DisplayFailed | InputEnded

  /** `subprocess.run(..., check=True)`: a zero status is success, any other
      status raises CalledProcessError carrying it, and every other
      exception is reported with its message. */
  function OutcomeOf(r: RunResult): (o: Outcome)
    ensures o == Success <==> r == Exited(0)
    ensures o.NonZero? <==> r.Exited? && r.status != 0
    ensures o.NonZero? ==> o.code == r.status && o.code != 0
    ensures o.OtherError? <==> r.Raised?
  {
    match r
    case Exited(status) => if status == 0 then Success else NonZero(status)
    case Raised(message) => OtherError(message)
  }

  /** One pass of the loop body from the prompt: the stripped line is
      compared with the Quit number first, then looked up in the menu. */
  function Step(menu: Menu, exitNumber: nat, turn: Turn): (t: Transition)
    ensures t.next == Terminated <==> t.event == Exiting
    ensures t.event == Exiting <==> Strip(turn.line) == Str(exitNumber)
    ensures t.event == InvalidChoice <==>
      Strip(turn.line) != Str(exitNumber) && Strip(turn.line) !in menu
    ensures t.event.Ran? ==>
      && Strip(turn.line) in menu
      && t.event.command == menu[Strip(turn.line)].command
      && t.event.outcome == OutcomeOf(turn.result)
  {
    var choice := Strip(turn.line);
    if choice == Str(exitNumber) then
      Transition(Terminated, Exiting)
    else if choice !in menu then
      Transition(Prompting, InvalidChoice)
    else
      Transition(Prompting, Ran(menu[choice].command, OutcomeOf(turn.result)))
  }

  /** Typing the Quit number, with any whitespace around it, terminates
      the loop without running anything. */
  lemma QuitTerminates(menu: Menu, lead: string, trail: string, result: RunResult)
    requires AllSpace(lead) && AllSpace(trail)
    ensures Step(menu, ExitNumber(menu), Turn(lead + ExitKey(menu) + trail, result))
         == Transition(Terminated, Exiting)
  {
    ExitKeyIsFree(menu);
    StripPadded(lead, ExitKey(menu), trail);
  }

  /** Every entry whose key has no surrounding whitespace can be chosen,
      whatever the user types around it: Quit never shadows it, exactly its
      command runs, and the loop goes back to the prompt whatever the
      command's outcome. */
  lemma EntrySelectable(menu: Menu, key: string, lead: string, trail: string, result: RunResult)
    requires key in menu && IsStripped(key)
    requires AllSpace(lead) && AllSpace(trail)
    ensures Step(menu, ExitNumber(menu), Turn(lead + key + trail, result))
         == Transition(Prompting, Ran(menu[key].command, OutcomeOf(result)))
  {
    ExitKeyIsFree(menu);
    StripPadded(lead, key, trail);
  }

  /** A key with whitespace at either end can never be chosen: the typed
      line is stripped first. */
  lemma PaddedKeyUnreachable(menu: Menu, key: string, exitNumber: nat, turn: Turn)
    requires key in menu && !IsStripped(key)
    ensures Step(menu, exitNumber, turn).event.Ran? ==> Strip(turn.line) != key
  {
  }

  /** Empty input, or input made only of whitespace, is not special: it is
      an invalid choice unless the menu has the key "", whose command it
      then runs. */
  lemma BlankInput(menu: Menu, blank: string, result: RunResult)
    requires AllSpace(blank)
    ensures "" !in menu ==>
      Step(menu, ExitNumber(menu), Turn(blank, result)) == Transition(Prompting, InvalidChoice)
    ensures "" in menu ==>
      Step(menu, ExitNumber(menu), Turn(blank, result))
      == Transition(Prompting, Ran(menu[""].command, OutcomeOf(result)))
  {
    ExitKeyIsFree(menu);
    StripPadded(blank, [], []);
    assert blank + [] + [] == blank;
  }

  /** A menu with the key "" never reaches the prompt: the first screen
      already fails, because `int("")` raises. So the "" branch of
      BlankInput cannot happen in a session. */
  lemma EmptyKeyFailsDisplay(menu: Menu)
    requires "" in menu
    ensures !AllKeysParse(menu)
    ensures Display(menu, ExitNumber(menu)) == None
  {
    PyIntOfBlank("");
  }

  /** `main`'s `while True` loop over the lines the user types. Each pass
      first draws the menu, which raises when a key cannot be converted by
      `int`; then reads a line, which raises at end of input; then takes one
      Step. Only the Quit choice leaves the loop normally. */
  method Session(menu: Menu, turns: seq<Turn>) returns (ending: Ending, events: seq<Event>)
    ensures ending == DisplayFailed <==> !AllKeysParse(menu)
    ensures ending == DisplayFailed ==> events == []
    ensures |events| <= |turns|
    ensures forall i :: 0 <= i < |events| ==>
      events[i] == Step(menu, ExitNumber(menu), turns[i]).event
    ensures forall i :: 0 <= i < |events| ==>
      (events[i] == Exiting <==> ending == Quit && i == |events| - 1)
    ensures ending == Quit <==>
      AllKeysParse(menu) &&
      exists i :: 0 <= i < |turns| && Strip(turns[i].line) == ExitKey(menu)
    ensures ending == InputEnded ==> |events| == |turns|
    ensures ending == Quit ==> |events| > 0 && events[|events| - 1] == Exiting
  {
    var exitNumber := ExitNumber(menu);
    events := [];
    ending := InputEnded;
    var i := 0;
    while true
      invariant 0 <= i <= |turns| && |events| == i
      invariant ending == InputEnded
      invariant i > 0 ==> AllKeysParse(menu)
      invariant forall j :: 0 <= j < i ==> events[j] == Step(menu, exitNumber, turns[j]).event
      invariant forall j :: 0 <= j < i ==> Strip(turns[j].line) != Str(exitNumber)
      decreases |turns| - i
    {
      if !AllKeysParse(menu) {
        ending := DisplayFailed;
        break;
      }
      if i == |turns| {
        break;
      }
      var t := Step(menu, exitNumber, turns[i]);
      events := events + [t.event];
      i := i + 1;
      if t.next == Terminated {
        ending := Quit;
        assert Strip(turns[i - 1].line) == ExitKey(menu);
        break;
      }
    }
  }

  /** The example configuration with two entries: Quit is 3, "1" runs
      `ls`, "3" quits, and "9" is an invalid choice. */
  lemma TwoEntryExample(result: RunResult)
    ensures var menu := map["1" := Item("List files", "ls"), "2" := Item("Echo", "echo hi")];
      && ExitNumber(menu) == 3
      && Step(menu, 3, Turn("1", result)) == Transition(Prompting, Ran("ls", OutcomeOf(result)))
      && Step(menu, 3, Turn("3", result)) == Transition(Terminated, Exiting)
      && Step(menu, 3, Turn("9", result)) == Transition(Prompting, InvalidChoice)
  {
    var menu := map["1" := Item("List files", "ls"), "2" := Item("Echo", "echo hi")];
    assert IsDigits("1") && IsDigits("2");
    assert Decimal("1") == 1 && Decimal("2") == 2;
    var e := ExitNumber(menu);
    assert "1" in menu && "2" in menu;
    assert forall k :: k in menu ==> k == "1" || k == "2";
    assert e == 3;
    StripStripped("1");
    StripStripped("3");
    StripStripped("9");
    assert Str(3) == "3";
  }

  /** The empty configuration: Quit is 1, the screen shows only the Quit
      line, and typing "1" quits. */
  lemma EmptyMenuExample(result: RunResult)
    ensures ExitNumber(map[]) == 1
    ensures Display(map[], 1) == Some([QuitLine(1)])
    ensures Step(map[], 1, Turn("1", result)) == Transition(Terminated, Exiting)
  {
    StripStripped("1");
    assert Str(1) == "1";
    var menu: Menu := map[];
    assert |menu| == 0;
    var lines := Display(menu, 1).value;
    assert |lines| == 1 && lines[0] == QuitLine(1);
    assert lines == [QuitLine(1)];
  }
}
