/** The main loop of joycon_rcon.py as it runs: module-level state that each pass
    updates in place. The fields of `Remote` are the globals `prev`, `pre_pos_x`,
    `pre_pos_y` and `mode`, a flag for "sys.exit(0) has not been called", and the
    effects issued so far. Each method is proved to do what the functions of module
    Translator say, so the properties proved there hold of it. The constructor binds
    `prev` to the startup status, which the script itself never does; the first pass as
    written is modelled in module FirstIteration. */
module JoyconRcon {
  import opened Translator

  class Remote {
    var prev: Buttons
    var preX: real
    var preY: real
    var mode: Mode
    var running: bool
    /** The effects issued so far, in order. */
    var out: seq<Action>

    /** The loop state these fields hold. */
    function State(): Loop
      reads this
    {
      Loop(prev, preX, preY, mode, running)
    }

    /** Loop entry (lines 39-42), after the device is found: `startup` is the status
        read at line 39; `pointer` gives x as read at line 40 and y as read again at
        line 41. */
    constructor (startup: Buttons, pointer: Pointer)
      ensures State() == Init(startup, pointer) && out == []
      ensures mode == Laser && running && prev == startup
    {
      prev := startup;
      preX := pointer.x;
      preY := -pointer.y;  // the sign flip of line 41
      mode := Laser;
      running := true;
      out := [];
    }

    /** toggle_mode (lines 61-71); `press` is the laser key press it makes. */
    method ToggleMode() returns (press: Action)
      modifies this`mode
      ensures mode == Toggle(old(mode)).mode && press == Toggle(old(mode)).press
    {
      if mode == Laser {
        press := LaserOff;  // laser_off()
        mode := Cursor;
      } else {
        press := LaserOn;   // laser_on()
        mode := Laser;
      }
    }

    /** The button handling of lines 95-128: each button answers a new press, that is,
        one that is down in `now` and was not in `prev`, in the order of `Checked`; a new
        SR press toggles the mode. */
    method CheckPresses(now: Buttons) returns (checked: seq<Action>)
      modifies this`mode
      ensures checked == Answers(now, prev, old(mode), Checked)
      ensures mode == if Rising(now.sr, prev.sr) then Toggle(old(mode)).mode else old(mode)
    {
      ghost var m := mode;
      checked := CheckPaging(now, []);
      checked := CheckClicks(now, checked);
      checked := CheckToggle(now, checked);
      checked := CheckSystem(now, checked);
      AnswersChecked(now, prev, m);
      assert [] + Piece(now, prev, m, X) == Piece(now, prev, m, X);
    }

    /** X and B (lines 98-104): page up and page down, appended to `checked`. */
    method CheckPaging(now: Buttons, checked: seq<Action>) returns (r: seq<Action>)
      ensures r == checked + Piece(now, prev, mode, X) + Piece(now, prev, mode, B)
    {
      r := checked;
      if now.x && !prev.x {
        r := r + [PageUp];
      }
      if now.b && !prev.b {
        r := r + [PageDown];
      }
    }

    /** Y and A (lines 106-112): left and right click, appended to `checked`. */
    method CheckClicks(now: Buttons, checked: seq<Action>) returns (r: seq<Action>)
      ensures r == checked + Piece(now, prev, mode, Y) + Piece(now, prev, mode, A)
    {
      r := checked;
      if now.y && !prev.y {
        r := r + [LeftClick];
      }
      if now.a && !prev.a {
        r := r + [RightClick];
      }
    }

    /** SR (lines 114-117): a new press toggles the mode and appends the laser press. */
    method CheckToggle(now: Buttons, checked: seq<Action>) returns (r: seq<Action>)
      modifies this`mode
      ensures r == checked + Piece(now, prev, old(mode), SR)
      ensures mode == if Rising(now.sr, prev.sr) then Toggle(old(mode)).mode else old(mode)
    {
      r := checked;
      if now.sr && !prev.sr {
        var press := ToggleMode();
        r := r + [press];
      }
    }

    /** PLUS and HOME (lines 119-127): orientation reset and exit, appended to `checked`. */
    method CheckSystem(now: Buttons, checked: seq<Action>) returns (r: seq<Action>)
      ensures r == checked + Piece(now, prev, mode, Plus) + Piece(now, prev, mode, Home)
    {
      r := checked;
      if now.plus && !prev.plus {
        r := r + [ResetOrientation];  // joycon_gyro.reset_orientation()
      }
      if now.home && !prev.home {
        r := r + [Exit];  // sys.exit(0), carried out by Step
      }
    }

    /** One pass of the `while True` body (lines 77-134). */
    method Step(poll: Poll)
      requires running
      modifies this
      ensures State() == Translator.Step(old(State()), poll).next
      ensures out == old(out) + Translator.Step(old(State()), poll).out
    {
      if poll.Lost? {
        return;  // lines 80-83: warn, back off, `continue`
      }
      var now, gyro := poll.buttons, poll.pointer;
      // lines 88-93
      var move: seq<Action> := [];
      var curX, curY := gyro.x, -gyro.y;
      var dx, dy := curX - preX, curY - preY;
      if now.r || now.zr {
        move := [MoveRel(dx * MoveSpeed, dy * MoveSpeed)];
      }
      preX, preY := curX, curY;
      var checked := CheckPresses(now);
      out := out + (move + checked);
      if now.home && !prev.home {
        running := false;  // sys.exit(0): the loop ends before `prev` is updated
        return;
      }
      prev := now;  // line 131
    }
  }

  /** The main loop over a sequence of polls: it runs until the polls are used up or a
      new HOME press ends it, and issues exactly the effects of `Run`. */
  method MainLoop(startup: Buttons, pointer: Pointer, polls: seq<Poll>)
    returns (out: seq<Action>, last: Loop)
    ensures out == Run(Init(startup, pointer), polls).out
    ensures last == Run(Init(startup, pointer), polls).next
  {
    var remote := new Remote(startup, pointer);
    ghost var whole := Run(Init(startup, pointer), polls);
    var i := 0;
    while i < |polls| && remote.running
      invariant 0 <= i <= |polls|
      invariant remote.out + Run(remote.State(), polls[i..]).out == whole.out
      invariant Run(remote.State(), polls[i..]).next == whole.next
    {
      ghost var done, st := remote.out, remote.State();
      ghost var first := Translator.Step(st, polls[i]);
      ghost var rest := Run(first.next, polls[i + 1..]);
      RunAt(st, polls, i);
      remote.Step(polls[i]);
      AppendAssoc(done, first.out, rest.out);
      i := i + 1;
    }
    assert Run(remote.State(), polls[i..]) == Outcome(remote.State(), []);
    assert remote.out + [] == remote.out;
    out, last := remote.out, remote.State();
  }
}
