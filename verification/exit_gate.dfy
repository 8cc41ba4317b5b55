/**
 The double-back-press exit gate. Its whole state is the time of the
 previous back press, in milliseconds, starting at 0. A press at `now`
 asks for exit confirmation when the previous press was less than two
 seconds earlier, and shows a "press back again" hint otherwise; either way
 the press then becomes the previous press. The clock reading is a
 parameter; what the dialog and the hint look like is not modelled.
 */
module ExitGate {

  /** `backPressInterval`: two seconds, in milliseconds. */
  const BackPressInterval: int := 2000

  /** `backPressedTime`, the time of the previous back press. */
  datatype Gate = Gate(backPressedTime: int)

  /** A fresh screen: `backPressedTime` starts at 0. */
  const Initial: Gate := Gate(0)

  datatype Action = ConfirmExit | ShowHint

  datatype Outcome = Outcome(action: Action, next: Gate)

  /** One back press at clock reading `now`. The hint is shown exactly when
      at least two seconds have passed since the previous press, so a press
      exactly 2000 ms later gets the hint; the new state records `now`
      whichever action is taken, the confirmation included. */
  function Press(g: Gate, now: int): (o: Outcome)
    ensures o.action == ShowHint <==> now - g.backPressedTime >= BackPressInterval
    ensures o.next.backPressedTime == now
  {
    var action := if g.backPressedTime + BackPressInterval > now then ConfirmExit else ShowHint;
    Outcome(action, Gate(now))
  }

  /** The actions a series of presses produces, and the state left behind. */
  datatype Run = Run(actions: seq<Action>, final: Gate)

  /** Presses at `times`, in order, from state `g`: one action per press,
      and the state left behind records the last press. */
  function Replay(g: Gate, times: seq<int>): (r: Run)
    ensures |r.actions| == |times|
    ensures times == [] ==> r.final == g
    ensures times != [] ==> r.final.backPressedTime == times[|times| - 1]
    decreases |times|
  {
    if times == [] then Run([], g)
    else
      var o := Press(g, times[0]);
      var rest := Replay(o.next, times[1..]);
      Run([o.action] + rest.actions, rest.final)
  }

  /** Every press after the first is measured from the press just before
      it, never from an older one: whether that earlier press showed the
      hint or asked for confirmation makes no difference. The first press
      is measured from the starting state. */
  lemma {:induction false} MeasuredFromPrevious(g: Gate, times: seq<int>)
    ensures var r := Replay(g, times);
      && (times != [] ==>
            (r.actions[0] == ShowHint <==> times[0] - g.backPressedTime >= BackPressInterval))
      && forall i :: 0 < i < |times| ==>
            (r.actions[i] == ShowHint <==> times[i] - times[i - 1] >= BackPressInterval)
    decreases |times|
  {
    if times != [] {
      var o := Press(g, times[0]);
      var rest := Replay(o.next, times[1..]);
      MeasuredFromPrevious(o.next, times[1..]);
      var r := Replay(g, times);
      assert r.actions == [o.action] + rest.actions;
      forall i | 0 < i < |times|
        ensures r.actions[i] == ShowHint <==> times[i] - times[i - 1] >= BackPressInterval
      {
        assert r.actions[i] == rest.actions[i - 1];
        assert times[1..][i - 1] == times[i];
        if i > 1 {
          assert times[1..][i - 2] == times[i - 1];
        }
      }
    }
  }

  /** Replaying two series one after the other is replaying them joined. */
  lemma {:induction false} ReplayAppend(g: Gate, first: seq<int>, second: seq<int>)
    ensures var a := Replay(g, first);
      var b := Replay(a.final, second);
      Replay(g, first + second) == Run(a.actions + b.actions, b.final)
    decreases |first|
  {
    if first != [] {
      assert (first + second)[1..] == first[1..] + second;
      ReplayAppend(Press(g, first[0]).next, first[1..], second);
    } else {
      assert first + second == second;
    }
  }

  /** The gate forgets everything but the latest press: two histories that
      end at the same instant react identically to whatever presses follow. */
  lemma HistoryForgotten(h1: seq<int>, h2: seq<int>, future: seq<int>)
    requires |h1| > 0 && |h2| > 0 && h1[|h1| - 1] == h2[|h2| - 1]
    ensures Replay(Initial, h1 + future).actions[|h1|..]
         == Replay(Initial, h2 + future).actions[|h2|..]
  {
    ReplayAppend(Initial, h1, future);
    ReplayAppend(Initial, h2, future);
    var a1 := Replay(Initial, h1);
    var a2 := Replay(Initial, h2);
    assert a1.final == a2.final;
    assert (a1.actions + Replay(a1.final, future).actions)[|h1|..] == Replay(a1.final, future).actions;
    assert (a2.actions + Replay(a2.final, future).actions)[|h2|..] == Replay(a2.final, future).actions;
  }

  /** On a fresh screen the first press asks for confirmation only when the
      clock reads less than 2000, since the state starts at 0 rather than
      being empty. */
  lemma FirstPress(now: int)
    ensures Press(Initial, now).action == ShowHint <==> now >= BackPressInterval
  {
  }

  /** Presses at 0, 1000 and 2500 on a fresh screen: the third is measured
      from the second, 1500 ms earlier, so all three ask for confirmation. */
  lemma ExampleFromZero()
    ensures Replay(Initial, [0, 1000, 2500]).actions == [ConfirmExit, ConfirmExit, ConfirmExit]
    ensures Replay(Initial, [0, 1000, 2500]).final == Gate(2500)
  {
  }

  /** With a real clock reading `t`: the hint, then confirmation 1000 ms
      later, then confirmation again 1500 ms after that, although 2500 ms
      have passed since the hint. */
  lemma ExampleDismissedDialog(t: int)
    requires t >= BackPressInterval
    ensures Replay(Initial, [t, t + 1000, t + 2500]).actions == [ShowHint, ConfirmExit, ConfirmExit]
  {
    var times := [t, t + 1000, t + 2500];
    MeasuredFromPrevious(Initial, times);
    var r := Replay(Initial, times);
    assert r.actions[0] == ShowHint && r.actions[1] == ConfirmExit && r.actions[2] == ConfirmExit;
  }

  /** The boundary: 1999 ms after the hint asks for confirmation, 2000 ms
      and 2001 ms after it show the hint again and restart the window. */
  lemma ExampleBoundary(t: int)
    requires t >= BackPressInterval
    ensures Replay(Initial, [t, t + 1999]).actions == [ShowHint, ConfirmExit]
    ensures Replay(Initial, [t, t + 2000]).actions == [ShowHint, ShowHint]
    ensures Replay(Initial, [t, t + 2001]) == Run([ShowHint, ShowHint], Gate(t + 2001))
  {
  }
}
