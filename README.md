# Script wrapper menu controller, modelled in Dafny

The repository is a small interactive menu (`wrapper.py`). It loads
a JSON object mapping keys to `{name, command}` entries and lists the entries
sorted by `int(key)`, followed by a synthesized Quit line. It then reads a
line, strips it and, if it is not Quit and is a key, runs that entry's command
through the shell. It loops until Quit is chosen.

This project models the controller's decision core:

- `PyText` gives ASCII models of the Python built-ins the controller relies
  on: `str.strip()` (`Strip`), `str.isdigit()` (`IsDigits`), `int(s)` in base
  10 (`PyInt`: surrounding C-locale whitespace, an optional sign, digits with single
  underscores, `None` for the `ValueError`) and `str(n)` (`Str`). It also
  proves the facts the controller needs about them.
- `MenuModel` holds the menu (`map<string, Item>`) and the Quit number
  (`ExitNumber`: one more than the largest all-digit key, or 1). It proves
  that the Quit key never equals a configured key (`ExitKeyIsFree`). It also
  holds the menu screen (`Display`, `DisplayedKeys`): every key once, in
  ascending order of `int(key)`, then the Quit line.
- `Controller` holds one pass of the input loop as a transition function
  (`Step`) over the states `Prompting` / `Terminated`, and the loop itself
  as a method (`Session`) over a sequence of typed lines. Each line is paired
  with what the shell would report if that line dispatched a command.

The menu is an immutable value that no operation changes, so "the menu is
unchanged after an invalid choice" holds by construction.

Some facts about the code that the model makes explicit:

- Empty input has no error message of its own. `Step` looks it up like any
  other line (`Controller.BlankInput`). A `""` key never gets that far: the
  first screen already calls `int("")`, which raises, so such a session ends
  before the first prompt (`Controller.EmptyKeyFailsDisplay`).
- The Quit number cannot collide with a key, even when no key is numeric
  (`MenuModel.ExitKeyIsFree`).
- Nothing is written to a log. Entries are not validated at load time.
- An interrupt during a command is not caught. `KeyboardInterrupt` is not
  an `Exception`, so it escapes both handlers.

The shell, the terminal and the file system are outside the model. A
command's outcome is an input (`Controller.RunResult`); the typed lines are
an input sequence.

## Model

| member | source | states |
|---|---|---|
| `PyText.IsSpace` | wrapper.py:42 | the characters `str.strip()` removes, on ASCII: space, tab through carriage return, and 0x1C through 0x1F. A predicate with no contract of its own |
| `PyText.IsIntSpace` | wrapper.py:28 | the whitespace `int()` skips around a number: space and tab through carriage return, without the separators 0x1C through 0x1F. A predicate with no contract of its own |
| `PyText.Strip` | wrapper.py:42 | the stripped choice neither starts nor ends with whitespace and is no longer than the typed line |
| `PyText.TrimStartSpec` | wrapper.py:42 | trimming the front keeps exactly the longest suffix that does not start with whitespace of the given kind; everything dropped is such whitespace |
| `PyText.TrimEndSpec` | wrapper.py:42 | trimming the back keeps exactly the longest prefix that does not end with whitespace of the given kind; everything dropped is such whitespace |
| `PyText.StripPadded` | wrapper.py:42 | stripping a text wrapped in any whitespace gives back exactly that text, when the text itself has no whitespace at its ends |
| `PyText.StripStripped` | wrapper.py:42 | a text without surrounding whitespace is unchanged by strip, so strip is idempotent |
| `PyText.IsDigits` | wrapper.py:37 | `k.isdigit()` on ASCII: non-empty and made only of '0' to '9'. A predicate with no contract of its own; `PyIntOfDigits` ties it to `int` |
| `PyText.Str` | wrapper.py:44 | `str(n)` is a non-empty digit string with no leading zero, and starts with '0' exactly when n is 0 |
| `PyText.DecimalOfStr` | wrapper.py:37-44 | the digit value of `str(n)` is n, so `str(exit_number)`, read as a key, has value `exit_number` |
| `PyText.StrOfDecimal` | wrapper.py:37-44 | every digit string without a leading zero is `str` of its value, so `str` is a bijection onto those strings |
| `PyText.DecimalPositive` | wrapper.py:37 | a digit string not starting with '0' has a positive value |
| `PyText.DigitTailDigits` | wrapper.py:28 | removing the underscores of valid digit groups leaves only digits |
| `PyText.DigitsAreGroups` | wrapper.py:28 | a plain digit string is valid digit groups and has no underscore to remove |
| `PyText.PyInt` | wrapper.py:28 | `int(key)`: trim C-locale whitespace, an optional sign, digit groups with single underscores; None for the ValueError. It has no contract of its own; the lemmas below pin it on digit strings, signed digit strings, padded text, blank text and text led by a separator |
| `PyText.PyIntOfDigits` | wrapper.py:28-37 | on a key that `isdigit` accepts, `int` succeeds and gives the key's digit value |
| `PyText.PyIntOfStr` | wrapper.py:28-44 | `int(str(n)) == n` |
| `PyText.PyIntOfBlank` | wrapper.py:28 | `int` of empty or blank text fails |
| `PyText.PyIntOfPadded` | wrapper.py:28 | `int` gives the same answer with or without space, tab, line feed, vertical tab, form feed or carriage return around the text |
| `PyText.PyIntKeepsSeparators` | wrapper.py:28-42 | a digit string led by one of 0x1C to 0x1F strips to the digits, yet `int` rejects it |
| `PyText.PyIntOfSigned` | wrapper.py:28 | a digit string with a leading '-' converts to minus its value, and with a leading '+' to its value |
| `MenuModel.NumericValues` | wrapper.py:37 | the values of the keys `isdigit` accepts. No contract of its own; `ExitNumber`'s contract states what is taken from it |
| `MenuModel.ExitNumber` | wrapper.py:37-38 | the Quit number is at least 1 and above every all-digit key's value. It is one more than the largest such value, or 1 when no key is all digits |
| `MenuModel.ExitKey` | wrapper.py:44 | `str(exit_number)`: the canonical digit string whose value is the Quit number, and which `int` reads back as that number |
| `MenuModel.ExitKeyIsFree` | wrapper.py:37-44 | `str(exit_number)` is never a key of the menu, whatever its keys, so checking Quit first never hides an entry; it is non-empty and has no surrounding whitespace |
| `MenuModel.SortByValue` | wrapper.py:28 | the sorted listing has each key exactly once and nothing else, in non-decreasing order of value |
| `MenuModel.DisplayedKeys` | wrapper.py:28 | the screen lists every menu key exactly once, in ascending order of `int(key)` |
| `MenuModel.Display` | wrapper.py:25-30 | the screen exists exactly when every key converts with `int`. It then has one entry line per key, in the order of DisplayedKeys and with that entry's name, and the Quit line with `exit_number` as the last line |
| `MenuModel.DisplayedKeysUnique` | wrapper.py:28 | when no two keys have the same `int` value, any listing of the keys, each once, in ascending order is the displayed one |
| `MenuModel.DigitKeysParse` | wrapper.py:28-37 | when every key is all digits, every key converts and the sort value is the digit value used for the Quit number |
| `MenuModel.QuitLineDistinct` | wrapper.py:29-30 | no entry line on the screen carries the Quit line's number as its key |
| `Controller.OutcomeOf` | wrapper.py:54-60 | a zero exit status is success; a non-zero status is reported with that code; any other exception is reported as an error |
| `Controller.Step` | wrapper.py:42-60 | only the stripped line equal to `str(exit_number)` terminates; a line that is neither Quit nor a key is invalid; otherwise exactly that entry's command is dispatched with the shell's outcome, and the state stays Prompting |
| `Controller.QuitTerminates` | wrapper.py:42-46 | typing the Quit number, with any whitespace around it, terminates and runs nothing |
| `Controller.EntrySelectable` | wrapper.py:42-56 | typing any key without surrounding whitespace, padded or not, runs exactly that entry's command and returns to Prompting, for every outcome of the command |
| `Controller.PaddedKeyUnreachable` | wrapper.py:42-48 | a key with whitespace at either end is never the choice that dispatches |
| `Controller.BlankInput` | wrapper.py:42-52 | empty or blank input is an invalid choice when `""` is not a key, and `Step` runs the `""` entry when it is |
| `Controller.EmptyKeyFailsDisplay` | wrapper.py:28-42 | with a `""` key the first screen fails, since `int("")` raises, so a session never reaches that branch of `Step` |
| `Controller.Session` | wrapper.py:40-62 | the loop fails at the first screen exactly when some key does not convert. Otherwise the i-th event is Step on the i-th line. Only the last event can be Quit, and the loop quits exactly when some line strips to the Quit key; it then stops at the first such line, after the steps for the lines before it. If no line does, every line is consumed |
| `Controller.TwoEntryExample` | wrapper.py:37-52 | with keys "1" (`ls`) and "2" (`echo hi`), Quit is 3, "1" runs `ls`, "3" quits and "9" is invalid |
| `Controller.EmptyMenuExample` | wrapper.py:25-46 | with no entries, Quit is 1, the screen shows only the Quit line, and "1" quits |

## Left out

- `load_menu` (wrapper.py:16-22): the file-existence check, reading and
  parsing the JSON file, and `sys.exit(1)`. This is I/O and a library parser.
  The model starts from the parsed mapping.
- Entries without `name` or `command`, or entries that are not objects: the
  code raises `KeyError`/`TypeError` when it reaches them. `Item` always has
  both fields.
- `subprocess.run(command, shell=True, check=True)` and the shell itself.
  These are a foreign call. Their result is the input `RunResult`.
- `print`, `input()`, the ANSI colour constants, the banner and the
  "Press Enter to continue" pause (wrapper.py:7-11, 27-30, 45, 49, 55, 58,
  60, 62). These are terminal I/O. The model does not consume the line read
  by the pause.
- End of input at the prompt: in the source, `input()` raises an uncaught
  `EOFError`. The model ends the session with `InputEnded`.
- `KeyboardInterrupt` at the prompt or during a command: it escapes the
  program and is not modelled.
- Exception types beyond "non-zero exit status" and "any other exception"
  (wrapper.py:57-60).
- PyText.IsSpace: only ASCII is modelled; the same holds for
  `PyText.IsIntSpace`, `PyText.IsDigits` and `PyText.PyInt`. Python's
  Unicode whitespace, Unicode digits (which `isdigit` accepts and `int` may
  reject) and non-ASCII text are not.
- PyText.PyInt: since CPython 3.7.14, 3.8.14, 3.9.14, 3.10.7 and 3.11,
  converting between `int` and `str` for a number of more than 4300 digits
  raises `ValueError`. A key of more than 4300 digits then makes `int(k)`
  (wrapper.py:28, 37) raise. A key of exactly 4300 nines makes
  `exit_number` 4301 digits long, so printing it on the first screen
  (wrapper.py:30) raises. `PyInt`, `PyText.Str` and `MenuModel.ExitKey`
  always succeed.
- MenuModel.DisplayedKeys: among keys with the same `int` value (such as
  "1" and "01"), Python's stable sort keeps the order of the JSON file. A map
  has no order, so the model leaves that order unspecified; it is fixed only
  when the values are distinct (`MenuModel.DisplayedKeysUnique`).
