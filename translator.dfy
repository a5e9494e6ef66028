/** One pass of the Joy-Con remote's main loop (joycon_rcon.py, lines 77-134), as a
    function of the loop's state and of what that pass polls, with the properties of a
    single pass and of a whole run. The class in joycon_rcon.dfy executes the same pass
    step by step and is proved against `Step` and `Run`. */
module Translator {

  /** How far the mouse moves per unit of pointer change (MOVE_SPEED). */
  const MoveSpeed: real := 1500.0

  /** MODE_LASER and MODE_CURSOR. */
  datatype Mode = Laser | Cursor

  /** The buttons of one status report that the loop reads: the move buttons R and ZR,
      and the seven buttons it checks for a new press. */
  datatype Buttons = Buttons(r: bool, zr: bool, x: bool, b: bool, y: bool, a: bool,
                             sr: bool, plus: bool, home: bool)

  /** A pointer reading of the gyro tracker, as the tracker gives it (y not yet negated).
      Coordinates are reals: the float rounding of the source is not modelled. */
  datatype Pointer = Pointer(x: real, y: real)

  /** What one pass obtains: either the status poll raised (connection lost), or it
      returned a status report, after which the pointer was read. */
  datatype Poll = Lost | Polled(buttons: Buttons, pointer: Pointer)

  /** The effects a pass issues, in place of the calls the source makes. */
  datatype Action =
    | MoveRel(dx: real, dy: real)  // pyautogui.moveRel(dx, dy)
    | PageUp                       // pyautogui.press("pageup")
    | PageDown                     // pyautogui.press("pagedown")
    | LeftClick                    // pyautogui.click()
    | RightClick                   // pyautogui.click(button="right")
    | LaserOn                      // laser_on(): presses "l"
    | LaserOff                     // laser_off(): presses "l" as well
    | ResetOrientation             // joycon_gyro.reset_orientation()
    | Exit                         // sys.exit(0)

  /** The buttons the loop checks for a new press, in the order it checks them. */
  datatype Key = X | B | Y | A | SR | Plus | Home

  const Checked: seq<Key> := [X, B, Y, A, SR, Plus, Home]

  /** The state the loop keeps between passes: the previous report `prev`, the pointer
      anchor (pre_pos_x, pre_pos_y), the mode, and whether the loop still runs. */
  datatype Loop = Loop(prev: Buttons, anchorX: real, anchorY: real, mode: Mode, running: bool)

  /** The state after a pass and the effects it issued, in order. */
  datatype Outcome = Outcome(next: Loop, out: seq<Action>)

  /** The result of toggle_mode: the new mode and the laser key press it issues. */
  datatype Toggled = Toggled(mode: Mode, press: Action)

  function Held(now: Buttons, k: Key): bool
  {
    match k
    case X => now.x
    case B => now.b
    case Y => now.y
    case A => now.a
    case SR => now.sr
    case Plus => now.plus
    case Home => now.home
  }

  /** A new press: down in this report and not in the previous one. */
  predicate Rising(now: bool, before: bool)
  {
    now && !before
  }

  /** `act` is the effect that answers a press of `k`. */
  predicate AnswersTo(act: Action, k: Key)
  {
    match act
    case MoveRel(_, _) => false
    case PageUp => k == X
    case PageDown => k == B
    case LeftClick => k == Y
    case RightClick => k == A
    case LaserOn => k == SR
    case LaserOff => k == SR
    case ResetOrientation => k == Plus
    case Exit => k == Home
  }

  /** How many of the effects in `out` are answers to a press of `k`. */
  function Count(out: seq<Action>, k: Key): nat
    decreases |out|
  {
    if out == [] then 0 else (if AnswersTo(out[0], k) then 1 else 0) + Count(out[1..], k)
  }

  lemma {:induction false} CountAppend(a: seq<Action>, b: seq<Action>, k: Key)
    ensures Count(a + b, k) == Count(a, k) + Count(b, k)
    decreases |a|
  {
    if a != [] {
      assert (a + b)[1..] == a[1..] + b;
      CountAppend(a[1..], b, k);
    } else {
      assert a + b == b;
    }
  }

  /** The position of an effect in the fixed order of a pass. */
  function Rank(act: Action): (n: nat)
    ensures n <= 7
    ensures n == 7 <==> act == Exit
    ensures n == 0 <==> act.MoveRel?
  {
    match act
    case MoveRel(_, _) => 0
    case PageUp => 1
    case PageDown => 2
    case LeftClick => 3
    case RightClick => 4
    case LaserOn => 5
    case LaserOff => 5
    case ResetOrientation => 6
    case Exit => 7
  }

  /** The effects of `out` come in strictly increasing rank. */
  predicate Ordered(out: seq<Action>)
  {
    forall i, j :: 0 <= i < j < |out| ==> Rank(out[i]) < Rank(out[j])
  }

  /** toggle_mode (lines 61-71): LASER becomes CURSOR with a "laser off" press, CURSOR
      becomes LASER with a "laser on" press. */
  function Toggle(m: Mode): (r: Toggled)
    ensures r.mode != m
    ensures r.press == LaserOn <==> r.mode == Laser
    ensures r.press == LaserOff <==> r.mode == Cursor
  {
    if m == Laser then Toggled(Cursor, LaserOff) else Toggled(Laser, LaserOn)
  }

  /** The effect that answers a new press of `k` in mode `m` (lines 99-128). */
  function Answer(k: Key, m: Mode): (act: Action)
    ensures Rank(act) == KeyRank(k)
    ensures forall j :: AnswersTo(act, j) <==> j == k
  {
    match k
    case X => PageUp
    case B => PageDown
    case Y => LeftClick
    case A => RightClick
    case SR => Toggle(m).press
    case Plus => ResetOrientation
    case Home => Exit
  }

  /** The place of `k` among the checks. */
  function KeyRank(k: Key): nat
  {
    match k
    case X => 1
    case B => 2
    case Y => 3
    case A => 4
    case SR => 5
    case Plus => 6
    case Home => 7
  }

  /** The checks of `keys` in order: each newly pressed key issues its answer.
      (`now` is part of the measure only so that the verifier does not unfold the
      recursion eagerly over the fixed list `Checked`.) */
  function Answers(now: Buttons, before: Buttons, m: Mode, keys: seq<Key>): (r: seq<Action>)
    ensures forall act :: act in r ==> !act.MoveRel?
    ensures |r| <= |keys|
    decreases keys, now
  {
    if keys == [] then [] else Piece(now, before, m, keys[0]) + Answers(now, before, m, keys[1..])
  }

  /** What one checked button contributes: its answer if the press is new. */
  function Piece(now: Buttons, before: Buttons, m: Mode, k: Key): (r: seq<Action>)
    ensures r == [] || r == [Answer(k, m)]
    ensures |r| == 1 <==> Rising(Held(now, k), Held(before, k))
  {
    if Rising(Held(now, k), Held(before, k)) then [Answer(k, m)] else []
  }

  /** The checks of one pass, written out in the order the source makes them; the
      lemmas `Checked1` to `Checked6` are the steps of the proof. */
  lemma Checked1(now: Buttons, before: Buttons, m: Mode)
    ensures Answers(now, before, m, Checked[..1]) ==
      Piece(now, before, m, X)
  {
    assert Checked[..0] == [];
    AnswersPrefix(now, before, m, 0);
  }

  lemma Checked2(now: Buttons, before: Buttons, m: Mode)
    ensures Answers(now, before, m, Checked[..2]) ==
      Piece(now, before, m, X) + Piece(now, before, m, B)
  {
    Checked1(now, before, m);
    AnswersPrefix(now, before, m, 1);
  }

  lemma Checked3(now: Buttons, before: Buttons, m: Mode)
    ensures Answers(now, before, m, Checked[..3]) ==
      Piece(now, before, m, X) + Piece(now, before, m, B) + Piece(now, before, m, Y)
  {
    Checked2(now, before, m);
    AnswersPrefix(now, before, m, 2);
  }

  lemma Checked4(now: Buttons, before: Buttons, m: Mode)
    ensures Answers(now, before, m, Checked[..4]) ==
      Piece(now, before, m, X) + Piece(now, before, m, B) + Piece(now, before, m, Y)
        + Piece(now, before, m, A)
  {
    Checked3(now, before, m);
    AnswersPrefix(now, before, m, 3);
  }

  lemma Checked5(now: Buttons, before: Buttons, m: Mode)
    ensures Answers(now, before, m, Checked[..5]) ==
      Piece(now, before, m, X) + Piece(now, before, m, B) + Piece(now, before, m, Y)
        + Piece(now, before, m, A) + Piece(now, before, m, SR)
  {
    Checked4(now, before, m);
    AnswersPrefix(now, before, m, 4);
  }

  lemma Checked6(now: Buttons, before: Buttons, m: Mode)
    ensures Answers(now, before, m, Checked[..6]) ==
      Piece(now, before, m, X) + Piece(now, before, m, B) + Piece(now, before, m, Y)
        + Piece(now, before, m, A) + Piece(now, before, m, SR) + Piece(now, before, m, Plus)
  {
    Checked5(now, before, m);
    AnswersPrefix(now, before, m, 5);
  }

  lemma AnswersChecked(now: Buttons, before: Buttons, m: Mode)
    ensures Answers(now, before, m, Checked) ==
      Piece(now, before, m, X) + Piece(now, before, m, B) + Piece(now, before, m, Y)
        + Piece(now, before, m, A) + Piece(now, before, m, SR) + Piece(now, before, m, Plus)
        + Piece(now, before, m, Home)
  {
    Checked6(now, before, m);
    AnswersPrefix(now, before, m, 6);
    assert Checked[..7] == Checked;
  }

  /** Lines 88-92: while R or ZR is held, the mouse moves by the change since the anchor. */
  function Move(s: Loop, now: Buttons, pointer: Pointer): (m: seq<Action>)
    ensures |m| <= 1
    ensures |m| == 1 <==> now.r || now.zr
    ensures forall act :: act in m ==>
      act == MoveRel((pointer.x - s.anchorX) * MoveSpeed, (-pointer.y - s.anchorY) * MoveSpeed)
  {
    if now.r || now.zr
    then [MoveRel((pointer.x - s.anchorX) * MoveSpeed, (-pointer.y - s.anchorY) * MoveSpeed)]
    else []
  }

  /** The state at loop entry (lines 39-42): `prev` is the status read at startup, the
      anchor is x of the pointer read at line 40 and negated y of the pointer read again
      at line 41 (`pointer` holds both), the mode is LASER.
      The source itself never binds `prev` there; see module FirstIteration. */
  function Init(startup: Buttons, pointer: Pointer): (s: Loop)
    ensures s.running && s.mode == Laser
  {
    Loop(startup, pointer.x, -pointer.y, Laser, true)
  }

  /** One pass of the main loop (lines 77-134).
      A new press of R/ZR does not reset the orientation, the first held pass moves by
      the full change since the anchor, the anchor is moved on every pass whether or not
      R/ZR is held, and a pointer reading is always present (there is no fallback for a
      missing one). */
  function Step(s: Loop, poll: Poll): (r: Outcome)
    requires s.running
    // A failed poll changes nothing and issues nothing.
    ensures poll.Lost? ==> r.next == s && r.out == []
    // The anchor becomes the current reading with y negated, held or not.
    ensures poll.Polled? ==> r.next.anchorX == poll.pointer.x && r.next.anchorY == -poll.pointer.y
    // A move, of the scaled change since the anchor, comes first iff R or ZR is held.
    ensures poll.Polled? ==>
      ((|r.out| > 0 && r.out[0].MoveRel?) <==> (poll.buttons.r || poll.buttons.zr))
    ensures poll.Polled? && (poll.buttons.r || poll.buttons.zr) ==>
      r.out[0] == MoveRel((poll.pointer.x - s.anchorX) * MoveSpeed, (-poll.pointer.y - s.anchorY) * MoveSpeed)
    // Only a new SR press changes the mode.
    ensures r.next.mode != s.mode <==> poll.Polled? && Rising(poll.buttons.sr, s.prev.sr)
    // A new HOME press stops the loop and leaves `prev` as it was; otherwise `prev`
    // becomes the whole current report.
    ensures !r.next.running <==> poll.Polled? && Rising(poll.buttons.home, s.prev.home)
    ensures !r.next.running ==> r.next.prev == s.prev
    ensures poll.Polled? && r.next.running ==> r.next.prev == poll.buttons
    // At most one move and one answer per checked button.
    ensures |r.out| <= |Checked| + 1
  {
    match poll
    case Lost => Outcome(s, [])
    case Polled(now, pointer) =>
      var toggled := Rising(now.sr, s.prev.sr);
      var exit := Rising(now.home, s.prev.home);
      Outcome(Loop(if exit then s.prev else now, pointer.x, -pointer.y,
                   if toggled then Toggle(s.mode).mode else s.mode, !exit),
              Move(s, now, pointer) + Answers(now, s.prev, s.mode, Checked))
  }

  /** Over distinct keys, each key answers once if it is among them and newly pressed. */
  lemma {:induction false} CountAnswers(now: Buttons, before: Buttons, m: Mode, keys: seq<Key>, k: Key)
    requires forall i, j :: 0 <= i < j < |keys| ==> keys[i] != keys[j]
    ensures Count(Answers(now, before, m, keys), k) ==
      if k in keys && Rising(Held(now, k), Held(before, k)) then 1 else 0
    decreases |keys|
  {
    if keys != [] {
      var head := Piece(now, before, m, keys[0]);
      var tail := keys[1..];
      CountAnswers(now, before, m, tail, k);
      CountAppend(head, Answers(now, before, m, tail), k);
      assert Count(head, k) == if head != [] && keys[0] == k then 1 else 0 by {
        if head != [] {
          assert head[1..] == [];
          assert AnswersTo(head[0], k) <==> keys[0] == k;
        }
      }
      assert k in keys <==> k == keys[0] || k in tail;
      if k == keys[0] {
        assert k !in tail by {
          forall i | 0 <= i < |tail| ensures tail[i] != k {
            assert tail[i] == keys[i + 1];
          }
        }
      }
    }
  }

  /** Checking one more key appends its answer, if it is newly pressed. */
  lemma {:induction false} AnswersSnoc(now: Buttons, before: Buttons, m: Mode, keys: seq<Key>, k: Key)
    ensures Answers(now, before, m, keys + [k]) ==
      Answers(now, before, m, keys) + Piece(now, before, m, k)
    decreases |keys|
  {
    if keys == [] {
      assert keys + [k] == [k];
      assert [k][1..] == [];
    } else {
      assert (keys + [k])[1..] == keys[1..] + [k];
      AnswersSnoc(now, before, m, keys[1..], k);
    }
  }

  /** Checking the first `j + 1` keys is checking the first `j` and then key `j`. */
  lemma AnswersPrefix(now: Buttons, before: Buttons, m: Mode, j: nat)
    requires j < |Checked|
    ensures Answers(now, before, m, Checked[..j + 1]) ==
      Answers(now, before, m, Checked[..j])
      + Piece(now, before, m, Checked[j])
  {
    assert Checked[..j + 1] == Checked[..j] + [Checked[j]];
    AnswersSnoc(now, before, m, Checked[..j], Checked[j]);
  }

  /** Over keys in increasing place, all above `n`, the answers are ordered and above `n`. */
  lemma {:induction false} AnswersOrdered(now: Buttons, before: Buttons, m: Mode, keys: seq<Key>, n: nat)
    requires forall i :: 0 <= i < |keys| ==> KeyRank(keys[i]) > n
    requires forall i, j :: 0 <= i < j < |keys| ==> KeyRank(keys[i]) < KeyRank(keys[j])
    ensures Ordered(Answers(now, before, m, keys))
    ensures forall i :: 0 <= i < |Answers(now, before, m, keys)| ==> Rank(Answers(now, before, m, keys)[i]) > n
    decreases |keys|
  {
    if keys != [] {
      AnswersOrdered(now, before, m, keys[1..], KeyRank(keys[0]));
      OrderedCons(Piece(now, before, m, keys[0]), Answers(now, before, m, keys[1..]), n, KeyRank(keys[0]));
    }
  }

  /** At most one action of rank `k` before ordered actions all ranked above `k`. */
  lemma OrderedCons(head: seq<Action>, rest: seq<Action>, n: nat, k: nat)
    requires |head| <= 1 && (|head| == 1 ==> Rank(head[0]) == k) && n < k
    requires Ordered(rest) && forall i :: 0 <= i < |rest| ==> Rank(rest[i]) > k
    ensures Ordered(head + rest)
    ensures forall i :: 0 <= i < |head + rest| ==> Rank((head + rest)[i]) > n
  {
    var whole := head + rest;
    forall i, j | 0 <= i < j < |whole| ensures Rank(whole[i]) < Rank(whole[j]) {
      if i < |head| {
        assert whole[j] == rest[j - |head|];
      } else {
        assert whole[i] == rest[i - |head|] && whole[j] == rest[j - |head|];
      }
    }
    forall i | 0 <= i < |whole| ensures Rank(whole[i]) > n {
      if i >= |head| {
        assert whole[i] == rest[i - |head|];
      }
    }
  }

  /** Every key is checked, and checked once. */
  lemma CheckedDistinct(k: Key)
    ensures k in Checked
    ensures forall i, j :: 0 <= i < j < |Checked| ==> Checked[i] != Checked[j]
  {
  }

  /** Each checked button answers exactly once to a new press and never otherwise: holding
      steady or releasing steady issues nothing for it (lines 99-128). */
  lemma StepAnswersPresses(s: Loop, now: Buttons, pointer: Pointer, k: Key)
    requires s.running
    ensures Count(Step(s, Polled(now, pointer)).out, k) ==
      if Rising(Held(now, k), Held(s.prev, k)) then 1 else 0
  {
    var move, answers := Move(s, now, pointer), Answers(now, s.prev, s.mode, Checked);
    CountAppend(move, answers, k);
    CheckedDistinct(k);
    CountAnswers(now, s.prev, s.mode, Checked, k);
  }

  /** `out` holds no answer to `k` exactly when its count for `k` is zero. */
  lemma {:induction false} CountZero(out: seq<Action>, k: Key)
    ensures Count(out, k) == 0 <==> forall act :: act in out ==> !AnswersTo(act, k)
    decreases |out|
  {
    if out != [] {
      CountZero(out[1..], k);
      assert forall act :: act in out <==> act == out[0] || act in out[1..];
    }
  }

  /** Only an exit answers HOME. */
  lemma CountHome(out: seq<Action>)
    ensures Count(out, Home) == 0 <==> Exit !in out
  {
    CountZero(out, Home);
  }

  /** Only a laser press answers SR. */
  lemma CountSR(out: seq<Action>)
    ensures Count(out, SR) == 0 <==> LaserOn !in out && LaserOff !in out
  {
    CountZero(out, SR);
  }

  /** The laser key press of a pass matches the mode it leaves the loop in. */
  lemma StepLaserMatchesMode(s: Loop, now: Buttons, pointer: Pointer)
    requires s.running
    ensures LaserOn in Step(s, Polled(now, pointer)).out ==> Step(s, Polled(now, pointer)).next.mode == Laser
    ensures LaserOff in Step(s, Polled(now, pointer)).out ==> Step(s, Polled(now, pointer)).next.mode == Cursor
  {
    var out := Step(s, Polled(now, pointer)).out;
    var move, answers := Move(s, now, pointer), Answers(now, s.prev, s.mode, Checked);
    if LaserOn in out || LaserOff in out {
      StepAnswersPresses(s, now, pointer, SR);
      CountSR(out);
      assert Rising(now.sr, s.prev.sr);
      LaserComesFromToggle(now, s.prev, s.mode, Checked);
      assert LaserOn in out ==> LaserOn in answers;
      assert LaserOff in out ==> LaserOff in answers;
    }
  }

  /** Among the answers, a laser press is always the press of toggling `m`. */
  lemma {:induction false} LaserComesFromToggle(now: Buttons, before: Buttons, m: Mode, keys: seq<Key>)
    ensures forall act :: act in Answers(now, before, m, keys) && (act == LaserOn || act == LaserOff) ==>
      act == Toggle(m).press
    decreases |keys|
  {
    if keys != [] {
      LaserComesFromToggle(now, before, m, keys[1..]);
    }
  }

  /** A pass issues an exit exactly when it stops the loop. */
  lemma StepExits(s: Loop, poll: Poll)
    requires s.running
    ensures Exit in Step(s, poll).out <==> !Step(s, poll).next.running
  {
    if poll.Polled? {
      StepAnswersPresses(s, poll.buttons, poll.pointer, Home);
      CountHome(Step(s, poll).out);
    }
  }

  /** One effect of rank 0 at most, followed by ordered effects of higher rank, is ordered. */
  lemma OrderedAfterMove(move: seq<Action>, answers: seq<Action>)
    requires |move| <= 1 && forall act :: act in move ==> Rank(act) == 0
    requires Ordered(answers) && forall i :: 0 <= i < |answers| ==> Rank(answers[i]) > 0
    ensures Ordered(move + answers)
  {
    var out := move + answers;
    forall i, j | 0 <= i < j < |out| ensures Rank(out[i]) < Rank(out[j]) {
      if i >= |move| {
        assert out[i] == answers[i - |move|];
      } else {
        assert out[i] in move;
      }
      assert out[j] == answers[j - |move|];
    }
  }

  /** In an ordered sequence, an exit can only come last. */
  lemma ExitIsLast(out: seq<Action>)
    requires Ordered(out) && Exit in out
    ensures out[|out| - 1] == Exit
  {
    var i :| 0 <= i < |out| && out[i] == Exit;
    assert Rank(out[i]) <= Rank(out[|out| - 1]);
  }

  /** The effects of a pass come in the fixed order move, page-up, page-down, left click,
      right click, laser press, orientation reset, exit; so an exit is the last of them. */
  lemma StepOrdered(s: Loop, poll: Poll)
    requires s.running
    ensures Ordered(Step(s, poll).out)
    ensures Exit in Step(s, poll).out ==> Step(s, poll).out[|Step(s, poll).out| - 1] == Exit
  {
    var out := Step(s, poll).out;
    if poll.Polled? {
      AnswersOrdered(poll.buttons, s.prev, s.mode, Checked, 0);
      OrderedAfterMove(Move(s, poll.buttons, poll.pointer), Answers(poll.buttons, s.prev, s.mode, Checked));
    }
    if Exit in out {
      ExitIsLast(out);
    }
  }

  /** Toggling twice restores the mode. */
  lemma ToggleTwice(m: Mode)
    ensures Toggle(Toggle(m).mode).mode == m
  {
  }

  /** The whole loop over a sequence of polls: it stops at the first new HOME press
      (sys.exit) and otherwise consumes every poll. */
  function Run(s: Loop, polls: seq<Poll>): (r: Outcome)
    // Once the loop has stopped, nothing more happens.
    ensures !s.running ==> r.next == s && r.out == []
    // No pass issues more than eight effects.
    ensures |r.out| <= 8 * |polls|
    decreases |polls|
  {
    if polls == [] || !s.running then Outcome(s, [])
    else
      var first := Step(s, polls[0]);
      var rest := Run(first.next, polls[1..]);
      Outcome(rest.next, first.out + rest.out)
  }

  /** One pass of `Run` over the polls from index `i` on. */
  lemma RunAt(s: Loop, polls: seq<Poll>, i: nat)
    requires s.running && i < |polls|
    ensures Run(s, polls[i..]).out ==
      Step(s, polls[i]).out + Run(Step(s, polls[i]).next, polls[i + 1..]).out
    ensures Run(s, polls[i..]).next == Run(Step(s, polls[i]).next, polls[i + 1..]).next
  {
    assert polls[i..][0] == polls[i] && polls[i..][1..] == polls[i + 1..];
  }

  /** Concatenation regroups; used to keep one pass of `MainLoop` cheap to check. */
  lemma AppendAssoc(a: seq<Action>, b: seq<Action>, c: seq<Action>)
    ensures a + (b + c) == a + b + c
  {
  }

  /** The status reports among the polls, failed polls dropped. */
  function Reports(polls: seq<Poll>): seq<Buttons>
  {
    if polls == [] then []
    else if polls[0].Lost? then Reports(polls[1..])
    else [polls[0].buttons] + Reports(polls[1..])
  }

  /** The number of new presses of `k` along `reports`, the first compared with `before`. */
  function Presses(k: Key, before: Buttons, reports: seq<Buttons>): nat
    decreases |reports|
  {
    if reports == [] then 0
    else (if Rising(Held(reports[0], k), Held(before, k)) then 1 else 0)
         + Presses(k, reports[0], reports[1..])
  }

  /** No report among the polls has HOME down. */
  predicate NoHome(polls: seq<Poll>)
  {
    forall i :: 0 <= i < |polls| && polls[i].Polled? ==> !polls[i].buttons.home
  }

  lemma NoHomeTail(polls: seq<Poll>)
    requires polls != [] && NoHome(polls)
    ensures NoHome(polls[1..])
  {
    forall i | 0 <= i < |polls[1..]| && polls[1..][i].Polled? ensures !polls[1..][i].buttons.home {
      assert polls[1..][i] == polls[i + 1];
    }
  }

  /** A run in which HOME is never down keeps running. */
  lemma {:induction false} RunWithoutHomeRuns(s: Loop, polls: seq<Poll>)
    requires s.running && NoHome(polls)
    ensures Run(s, polls).next.running
    decreases |polls|
  {
    if polls != [] {
      NoHomeTail(polls);
      if polls[0].Polled? {
        assert !polls[0].buttons.home;
      }
      RunWithoutHomeRuns(Step(s, polls[0]).next, polls[1..]);
    }
  }

  /** A run that is still going after its first pass is that pass followed by the rest. */
  lemma RunContinues(s: Loop, polls: seq<Poll>)
    requires s.running && polls != [] && Run(s, polls).next.running
    ensures Step(s, polls[0]).next.running
    ensures Run(Step(s, polls[0]).next, polls[1..]).next.running
  {
  }

  /** Over any run that HOME does not end, `prev` is the last report, or is unchanged if
      every poll failed. */
  lemma {:induction false} RunKeepsHistory(s: Loop, polls: seq<Poll>)
    requires s.running && Run(s, polls).next.running
    ensures Run(s, polls).next.prev ==
      (if Reports(polls) == [] then s.prev else Reports(polls)[|Reports(polls)| - 1])
    decreases |polls|
  {
    if polls != [] {
      var first := Step(s, polls[0]);
      RunContinues(s, polls);
      RunKeepsHistory(first.next, polls[1..]);
      var tail := Reports(polls[1..]);
      if polls[0].Polled? {
        assert first.next.prev == polls[0].buttons;
        assert Reports(polls) == [polls[0].buttons] + tail;
        if tail != [] {
          assert Reports(polls)[|Reports(polls)| - 1] == tail[|tail| - 1];
        }
      } else {
        assert first.next == s;
        assert Reports(polls) == tail;
      }
    }
  }

  /** Over any run that HOME does not end, the mode has flipped once per new SR press:
      an even number of them restores it. */
  lemma {:induction false} RunModeParity(s: Loop, polls: seq<Poll>)
    requires s.running && Run(s, polls).next.running
    ensures Run(s, polls).next.mode ==
      (if Presses(SR, s.prev, Reports(polls)) % 2 == 0 then s.mode else Toggle(s.mode).mode)
    decreases |polls|
  {
    if polls != [] {
      var first := Step(s, polls[0]);
      RunContinues(s, polls);
      RunModeParity(first.next, polls[1..]);
      var tail := Reports(polls[1..]);
      var later := Presses(SR, first.next.prev, tail);
      if polls[0].Polled? {
        var now := polls[0].buttons;
        assert first.next.prev == now;
        assert Reports(polls) == [now] + tail;
        assert Reports(polls)[1..] == tail;
        if Rising(now.sr, s.prev.sr) {
          assert Presses(SR, s.prev, Reports(polls)) == 1 + later;
          assert first.next.mode == Toggle(s.mode).mode;
          ToggleTwice(s.mode);
        } else {
          assert Presses(SR, s.prev, Reports(polls)) == later;
          assert first.next.mode == s.mode;
        }
      } else {
        assert first.next == s;
        assert Reports(polls) == tail;
      }
    }
  }

  /** Over any run that HOME does not end, every checked button answers exactly once per
      new press and never while held or released. */
  lemma {:induction false} RunAnswersEachPress(s: Loop, polls: seq<Poll>, k: Key)
    requires s.running && Run(s, polls).next.running
    ensures Count(Run(s, polls).out, k) == Presses(k, s.prev, Reports(polls))
    decreases |polls|
  {
    if polls != [] {
      var first := Step(s, polls[0]);
      RunContinues(s, polls);
      RunAnswersEachPress(first.next, polls[1..], k);
      CountAppend(first.out, Run(first.next, polls[1..]).out, k);
      if polls[0].Polled? {
        StepAnswersPresses(s, polls[0].buttons, polls[0].pointer, k);
        var tail := Reports(polls[1..]);
        assert Reports(polls) == [polls[0].buttons] + tail;
        assert Reports(polls)[1..] == tail;
      }
    }
  }

  /** The loop stops exactly when it issues an exit, and the exit is its last effect. */
  lemma {:induction false} RunStopsAtExit(s: Loop, polls: seq<Poll>)
    requires s.running
    ensures !Run(s, polls).next.running <==> Exit in Run(s, polls).out
    ensures Exit in Run(s, polls).out ==>
      Run(s, polls).out[|Run(s, polls).out| - 1] == Exit
    decreases |polls|
  {
    if polls != [] {
      var first := Step(s, polls[0]);
      StepOrdered(s, polls[0]);
      StepExits(s, polls[0]);
      if first.next.running {
        RunStopsAtExit(first.next, polls[1..]);
        var rest := Run(first.next, polls[1..]).out;
        var out := first.out + rest;
        assert Exit in out <==> Exit in rest;
        if Exit in rest {
          assert out[|out| - 1] == rest[|rest| - 1];
        }
      } else {
        assert Run(first.next, polls[1..]).out == [];
        assert first.out + [] == first.out;
      }
    }
  }
}
