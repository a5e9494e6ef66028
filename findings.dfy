/** The first pass of the main loop as joycon_rcon.py writes it. The loop's guards
    (lines 99-127) read `prev`, but nothing binds `prev` before line 131 assigns it at
    the end of the first pass. Python's `and` evaluates `not prev[...]` only when the
    button is down, so the first pass raises NameError exactly when one of the seven
    checked buttons is down; that happens outside the `try` of lines 78-83, so the
    program stops. `Translator.Init` binds `prev` to the status read at line 39, which
    is the evident intent; with it the guards never raise and answer exactly the new
    presses. */
module FirstIteration {
  import opened Translator

  datatype Option<T> = None | Some(value: T)

  /** How one guard `state[..][k] and not prev[..][k]` ends. */
  datatype Guard = Fires | Skips | Unbound  // Unbound: reading `prev` raised NameError

  /** One guard as Python evaluates it; `prev` is None while the name is unbound. */
  function GuardAsWritten(now: Buttons, prev: Option<Buttons>, k: Key): (g: Guard)
    ensures g == Unbound <==> prev.None? && Held(now, k)
    ensures g == Fires <==> prev.Some? && Rising(Held(now, k), Held(prev.value, k))
  {
    if !Held(now, k) then Skips  // `and` stops before reading `prev`
    else if prev.None? then Unbound
    else if Held(prev.value, k) then Skips
    else Fires
  }

  /** The guards of lines 99-127 in order: None if one of them raises, otherwise the
      keys whose guard fires. `now` is in the measure only so that the verifier does not
      unfold the function over the constant `Checked` wherever it is mentioned. */
  function GuardsAsWritten(now: Buttons, prev: Option<Buttons>, keys: seq<Key>): (r: Option<seq<Key>>)
    ensures prev.Some? ==> r.Some?
    ensures r.Some? ==> |r.value| <= |keys| && forall k :: k in r.value ==> k in keys
    decreases keys, now
  {
    if keys == [] then Some([])
    else
      var g := GuardAsWritten(now, prev, keys[0]);
      var rest := GuardsAsWritten(now, prev, keys[1..]);
      if g == Unbound || rest.None? then None
      else if g == Fires then Some([keys[0]] + rest.value)
      else rest
  }

  /** The effects that answer `keys` in order, in mode `m`. */
  function Answered(keys: seq<Key>, m: Mode): seq<Action>
  {
    if keys == [] then [] else [Answer(keys[0], m)] + Answered(keys[1..], m)
  }

  /** As written: with `prev` unbound, the guards raise exactly when one of the checked
      buttons is down. */
  lemma {:induction false} UnboundGuardsRaise(now: Buttons, keys: seq<Key>)
    ensures GuardsAsWritten(now, None, keys).None? <==> exists i :: 0 <= i < |keys| && Held(now, keys[i])
    decreases |keys|
  {
    if keys != [] {
      UnboundGuardsRaise(now, keys[1..]);
      if exists i :: 0 <= i < |keys[1..]| && Held(now, keys[1..][i]) {
        var i :| 0 <= i < |keys[1..]| && Held(now, keys[1..][i]);
        assert Held(now, keys[i + 1]);
      }
      if exists i :: 0 <= i < |keys| && Held(now, keys[i]) {
        var i :| 0 <= i < |keys| && Held(now, keys[i]);
        if i > 0 {
          assert Held(now, keys[1..][i - 1]);
        }
      }
    }
  }

  /** As written: the first pass stops the program exactly when one of X, B, Y, A, SR,
      PLUS and HOME is down in the first report. By then the pass has already made its
      move (lines 91-92) and moved the anchor (line 93); only the guards are modelled here. */
  lemma FirstPassRaises(now: Buttons)
    ensures GuardsAsWritten(now, None, Checked).None? <==>
      now.x || now.b || now.y || now.a || now.sr || now.plus || now.home
  {
    UnboundGuardsRaise(now, Checked);
    if now.x || now.b || now.y || now.a || now.sr || now.plus || now.home {
      if now.x { assert Held(now, Checked[0]); }
      else if now.b { assert Held(now, Checked[1]); }
      else if now.y { assert Held(now, Checked[2]); }
      else if now.a { assert Held(now, Checked[3]); }
      else if now.sr { assert Held(now, Checked[4]); }
      else if now.plus { assert Held(now, Checked[5]); }
      else { assert Held(now, Checked[6]); }
    }
  }

  /** As written: holding X (page up) in the first report stops the program, where the
      intended behaviour is a page up. */
  lemma PageUpFirstRaises()
    ensures GuardsAsWritten(Buttons(false, false, true, false, false, false, false, false, false),
                            None, Checked) == None
  {
    FirstPassRaises(Buttons(false, false, true, false, false, false, false, false, false));
  }

  /** Corrected: once `prev` is bound, no guard raises, and the guards that fire are the
      new presses, answered in order exactly as `Answers` answers them. */
  lemma {:induction false} BoundGuardsAnswer(now: Buttons, prev: Buttons, m: Mode, keys: seq<Key>)
    ensures GuardsAsWritten(now, Some(prev), keys).Some?
    ensures Answered(GuardsAsWritten(now, Some(prev), keys).value, m) == Answers(now, prev, m, keys)
    decreases |keys|
  {
    if keys != [] {
      BoundGuardsAnswer(now, prev, m, keys[1..]);
      var rest := GuardsAsWritten(now, Some(prev), keys[1..]).value;
      if Rising(Held(now, keys[0]), Held(prev, keys[0])) {
        assert ([keys[0]] + rest)[1..] == rest;
      }
    }
  }

  /** Corrected: from the state `Init` sets up, with `prev` bound to the startup status,
      the first pass raises nothing and issues the move followed by the answers to the
      guards that fire, in mode LASER. */
  lemma FirstPassCorrected(startup: Buttons, pointer: Pointer, now: Buttons, current: Pointer)
    ensures GuardsAsWritten(now, Some(Init(startup, pointer).prev), Checked).Some?
    ensures Step(Init(startup, pointer), Polled(now, current)).out ==
      Move(Init(startup, pointer), now, current)
      + Answered(GuardsAsWritten(now, Some(startup), Checked).value, Laser)
  {
    BoundGuardsAnswer(now, startup, Laser, Checked);
  }
}
