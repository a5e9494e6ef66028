# Joy-Con presentation remote: the main loop, verified

joycon_rcon.py turns a right Joy-Con into a presentation remote. At startup it reads
one status report, takes x from one read of the gyro tracker's pointer and y from a
second read, and sets the mode to LASER.
It then polls forever:

- A failed poll is logged, followed by a back-off and a retry.
- Otherwise the pointer reading becomes the new anchor.
- While R or ZR is held, the mouse moves by the change since the old anchor, times
  MOVE_SPEED (1500).
- Each new press of X, B, Y, A, SR, PLUS or HOME gets an answer, in that order. A new
  press is one that is down now and was not down in the previous report.
  - X: page up.
  - B: page down.
  - Y: left click.
  - A: right click.
  - SR: toggle between laser and cursor mode, pressing the laser key.
  - PLUS: reset the gyro orientation.
  - HOME: exit.
- The report is then kept as `prev` for the next pass.

The model has three modules:

- `Translator` (translator.dfy) describes one pass as a pure function, `Step`, from the
  loop state and the poll to the next state and the effects issued. `Run` describes a
  whole sequence of polls. Lemmas state what a pass and a run promise.
- `JoyconRcon` (joycon_rcon.dfy) executes the pass step by step. Class
  `Remote` holds the script's globals (`prev`, `pre_pos_x`, `pre_pos_y`, `mode`), a
  running flag and the effects issued so far. Its methods update them in place, and
  each method is proved equal to the corresponding function of `Translator`.
  `MainLoop` drives `Remote.Step` over a sequence of polls and is proved to produce
  `Run`. Like `Translator.Init`, it starts with `prev` bound to the startup status,
  which the script never does (see "## Findings").
- `FirstIteration` (findings.dfy) models the first pass as written, where `prev` is
  unbound, and the corrected first pass.

Effects are values of `Action`, one per call the script makes: `pyautogui.moveRel`,
`press("pageup")`, `press("pagedown")`, `click()`, `click(button="right")`, the two laser
helpers, `reset_orientation()` and `sys.exit(0)`.

## Model

| member | source | states |
|---|---|---|
| Translator.Toggle | joycon_rcon.py:61-71 | toggle_mode always changes the mode. It presses "laser on" exactly when the new mode is LASER, and "laser off" exactly when it is CURSOR |
| Translator.ToggleTwice | joycon_rcon.py:61-71 | two toggles restore the mode |
| Translator.Init | joycon_rcon.py:39-42 | the loop starts running, in mode LASER |
| Translator.Move | joycon_rcon.py:88-92 | at most one move, issued exactly when R or ZR is held, and it is (reading - anchor) * 1500 with y negated |
| Translator.Piece | joycon_rcon.py:98-127 | one guard: it answers a key, once, exactly when the key's press is new |
| Translator.Answers | joycon_rcon.py:98-127 | the guards over a list of keys issue no move and no more effects than there are keys. `CountAnswers` and `AnswersChecked` state which effects |
| Translator.Step | joycon_rcon.py:77-134 | A failed poll changes nothing and issues nothing. Otherwise the anchor becomes (x, -y) of the reading. A move comes first exactly when R or ZR is held, and it is (reading - anchor) * 1500. The mode changes exactly on a new SR press. The loop stops exactly on a new HOME press, and then `prev` keeps its old value. Otherwise `prev` becomes the report |
| Translator.Answer | joycon_rcon.py:98-127 | the effect answering a key answers that key and no other, and has the key's place in the order |
| Translator.AnswersChecked | joycon_rcon.py:98-127 | the checks of a pass are the seven single-button checks X, B, Y, A, SR, PLUS, HOME, one after another |
| Translator.CountAnswers | joycon_rcon.py:98-127 | over distinct keys, a key is answered once if it is among them and newly pressed, and never otherwise |
| Translator.StepAnswersPresses | joycon_rcon.py:96-127 | in a pass, each checked button is answered exactly once when its press is new, and never while held or released |
| Translator.LaserComesFromToggle | joycon_rcon.py:114-117 | every laser press among the answers is the press that toggling the pass's starting mode makes |
| Translator.StepLaserMatchesMode | joycon_rcon.py:114-117 | a "laser on" press leaves the loop in LASER and a "laser off" press leaves it in CURSOR |
| Translator.StepExits | joycon_rcon.py:124-127 | a pass issues an exit exactly when it stops the loop |
| Translator.StepOrdered | joycon_rcon.py:88-127 | The effects of a pass come in the order move, page up, page down, left click, right click, laser press, orientation reset, exit. Each appears at most once, and an exit is last |
| Translator.Run | joycon_rcon.py:77-134 | the `while True` loop over a sequence of polls, stopping at `sys.exit(0)`: once stopped nothing more happens, and a run issues at most eight effects per poll |
| Translator.RunWithoutHomeRuns | joycon_rcon.py:124-128 | a run in which HOME is never down never stops |
| Translator.RunKeepsHistory | joycon_rcon.py:130-131 | over any run that has not stopped, `prev` ends as the last report, or stays at its start when every poll failed |
| Translator.RunModeParity | joycon_rcon.py:114-117 | over any run that has not stopped, the mode ends toggled exactly when the number of new SR presses is odd |
| Translator.RunAnswersEachPress | joycon_rcon.py:96-127 | over any run that has not stopped, each checked button is answered exactly as many times as it is newly pressed along the reports |
| Translator.RunStopsAtExit | joycon_rcon.py:124-127 | a run stops exactly when it issues an exit, and then the exit is its last effect |
| JoyconRcon.Remote.constructor | joycon_rcon.py:39-42 | the fields hold `Init` of the startup report and pointer: mode LASER, running, `prev` the startup report, nothing issued |
| JoyconRcon.Remote.ToggleMode | joycon_rcon.py:61-71 | updates `mode` in place and returns the laser press, as `Toggle` describes |
| JoyconRcon.Remote.CheckPaging | joycon_rcon.py:98-104 | appends page up on a new X press, then page down on a new B press |
| JoyconRcon.Remote.CheckClicks | joycon_rcon.py:106-112 | appends a left click on a new Y press, then a right click on a new A press |
| JoyconRcon.Remote.CheckToggle | joycon_rcon.py:114-117 | on a new SR press, toggles the mode and appends the laser press. Otherwise it changes nothing |
| JoyconRcon.Remote.CheckSystem | joycon_rcon.py:119-127 | appends an orientation reset on a new PLUS press, then an exit on a new HOME press |
| JoyconRcon.Remote.CheckPresses | joycon_rcon.py:95-127 | issues exactly the answers `Answers` gives over the checked buttons. The mode is toggled exactly on a new SR press |
| JoyconRcon.Remote.Step | joycon_rcon.py:77-134 | updates the fields to the next state of `Translator.Step` and appends exactly its effects |
| JoyconRcon.MainLoop | joycon_rcon.py:77-134 | running the loop over a sequence of polls issues exactly the effects of `Run` and ends in its state |
| FirstIteration.GuardAsWritten | joycon_rcon.py:99-100 | A button's guard raises exactly when `prev` is unbound and the button is down. It fires exactly when `prev` is bound and the press is new |
| FirstIteration.GuardsAsWritten | joycon_rcon.py:99-127 | the seven guards in order, as written: with `prev` bound they never raise, and the keys that fire are among the listed keys and no more than them in number |
| FirstIteration.UnboundGuardsRaise | joycon_rcon.py:99-127 | with `prev` unbound, the guards raise exactly when one of the checked buttons is down |
| FirstIteration.FirstPassRaises | joycon_rcon.py:99-127 | as written, the first pass raises NameError exactly when X, B, Y, A, SR, PLUS or HOME is down in the first report |
| FirstIteration.PageUpFirstRaises | joycon_rcon.py:99-101 | as written, holding X at the first poll stops the program instead of turning the page |
| FirstIteration.BoundGuardsAnswer | joycon_rcon.py:99-127 | once `prev` is bound, no guard raises, and the guards that fire are answered exactly as `Answers` answers them |
| FirstIteration.FirstPassCorrected | joycon_rcon.py:39-42 | With `prev` bound to the startup report, the first pass raises nothing. It issues the move, then the answers to the guards that fire, in mode LASER |

## Left out

- Device discovery and set-up (lines 32-38) are not modelled. The startup status and pointer reading are parameters of `Init`. The start-up orientation reset and the exit with status 1 when set-up fails are not modelled either.
- The sensor fusion of the gyro tracker is not modelled. A pointer reading is a parameter of each poll.
- pyautogui calls become `Action` values. Effects on the screen and on PowerPoint are not modelled, and neither is the `duration=0` argument of `moveRel`.
- Logging and `time.sleep` (the 0.5 s back-off, the 0.02 s delay) are not modelled: they change no state the loop reads.
- Coordinates and MOVE_SPEED are reals. Float rounding is not modelled.
- `sys.exit(0)` clears the running flag and ends the loop. Process termination is not modelled.
- Both laser helpers press the same key "l". The model keeps them apart (`LaserOn`, `LaserOff`) so that the toggle's direction can be stated.
- The pointer reading (line 88) cannot fail in the model. The source has no handler for a failed read, and an exception there would end the program.
- Translator.Init and JoyconRcon.Remote.constructor: the loop model starts with `prev` bound to the status read at line 39, which lines 39-42 never do. `Run` and `MainLoop` therefore describe the first pass of the corrected program. The first pass as written is modelled in `FirstIteration` (see "## Findings").
- Translator.RunKeepsHistory, Translator.RunModeParity and Translator.RunAnswersEachPress are stated for runs that have not stopped. Runs that a new HOME press ends are covered by Translator.RunStopsAtExit and Translator.StepExits.
- These behaviours of the code are modelled as they are:
  - a fresh press of R or ZR does not reset the orientation;
  - the first held pass moves by the full change since the anchor, not by zero;
  - the anchor is updated on every successful pass, held or not;
  - a missing pointer reading has no fallback to the old anchor.

## Findings

| source | as written | input that shows it | evidently intended | confidence | as-written member | corrected member |
|---|---|---|---|---|---|---|
| joycon_rcon.py:99 | The guards read `prev`, but nothing assigns it before line 131. A button down in the first report raises NameError outside the `try` and stops the program | first successful poll with X down (any of X, B, Y, A, SR, PLUS, HOME) | `prev` starts as the startup status of line 39, so the first pass answers new presses like any other | not executed | FirstIteration.FirstPassRaises | FirstIteration.FirstPassCorrected |
