/** `tasks/task_ui.c`: the button and key side of the UI task. */
module UiTasks {
  import opened Wrappers
  import opened Records
  import opened Debounce

  const BTN4: nat := 0
  const BTN5: nat := 1

  /** `ui_handle_key`: the message a key stands for; Enter, space and unprintable keys have none. */
  function KeyMsg(key: char): (msg: Option<Msg>)
    ensures msg == Some(Report) <==> key in "rR"
    ensures msg == Some(StreamToggle) <==> key in "sS"
    ensures msg == Some(RateToggle) <==> key in "fF"
    ensures msg == Some(PauseToggle) <==> key in "pP"
    ensures msg == Some(PrintNewest) <==> key in "tT"
    ensures msg == Some(Stats) <==> key in "dD"
    ensures msg == Some(Help) <==> key in "hH?"
    ensures msg == Some(WdtTest(key)) <==> key in "1234"
    ensures msg == None <==> key <= ' ' || key > '~'
    ensures msg != Some(DataReady)
  {
    if key == 'r' || key == 'R' then Some(Report)
    else if key == 's' || key == 'S' then Some(StreamToggle)
    else if key == 'f' || key == 'F' then Some(RateToggle)
    else if key == 'p' || key == 'P' then Some(PauseToggle)
    else if key == 't' || key == 'T' then Some(PrintNewest)
    else if key == 'd' || key == 'D' then Some(Stats)
    else if key == 'h' || key == 'H' || key == '?' then Some(Help)
    else if '1' <= key <= '4' then Some(WdtTest(key))
    else if ' ' < key <= '~' then Some(UnknownKey(key))
    else None
  }

  function KeyMsgs(keys: seq<char>): seq<Msg> {
    if keys == [] then []
    else KeyMsgs(keys[..|keys| - 1]) +
         match KeyMsg(keys[|keys| - 1]) { case Some(msg) => [msg] case None => [] }
  }

  /** The messages one pass of the UI loop tries to send. */
  function PassMsgs(press4: bool, press5: bool, keys: seq<char>): (msgs: seq<Msg>)
    ensures keys == [] ==> (Report in msgs <==> press4) && (StreamToggle in msgs <==> press5)
    ensures press4 ==> msgs != [] && msgs[0] == Report
  {
    (if press4 then [Report] else []) + (if press5 then [StreamToggle] else []) + KeyMsgs(keys)
  }

  class Ui {
    const gpio: GpioDriver

    /** Presses taken so far, per button. */
    ghost var takes: seq<nat>

    ghost const Repr: set<object> := {this} + gpio.Repr

    ghost predicate Valid()
      reads Repr
    {
      && gpio.Valid() && gpio.ready && |takes| == BTN_COUNT
      && forall btn :: 0 <= btn < BTN_COUNT ==>
           takes[btn] + gpio.untaken[btn] == Presses(gpio.history[btn])
    }

    /** Between two passes no press is left over. */
    ghost predicate Settled()
      requires Valid()
      reads Repr
    {
      gpio.untaken == [0, 0]
    }

    constructor (raw: seq<bool>)
      requires |raw| == BTN_COUNT
      ensures Valid() && Settled() && fresh(Repr)
      ensures takes == [0, 0]
    {
      gpio := new GpioDriver(raw);
      takes := [0, 0];
    }

    method Scan(raw: seq<bool>)
      requires Valid() && Settled() && |raw| == BTN_COUNT
      modifies gpio.Repr
      ensures Valid()
      ensures forall btn :: 0 <= btn < BTN_COUNT ==>
                && gpio.history[btn] == History.Scan(old(gpio.history[btn]), raw[btn])
                && gpio.untaken[btn] == Presses(gpio.history[btn]) - Presses(old(gpio.history[btn])) <= 1
    {
      ghost var before := gpio.history;
      gpio.BtnScan(raw);
      forall btn | 0 <= btn < BTN_COUNT
        ensures Debounced(before[btn]).presses == Presses(before[btn])
        ensures Debounced(gpio.history[btn]).presses == Presses(gpio.history[btn])
      {
        DebouncedIsWindow(before[btn]);
        DebouncedIsWindow(gpio.history[btn]);
      }
    }

    method Take(btn: nat) returns (pressed: bool)
      requires Valid() && btn < BTN_COUNT && gpio.untaken[btn] <= 1
      modifies gpio.pressLatched, gpio`untaken, this`takes
      ensures Valid() && pressed == (old(gpio.untaken[btn]) == 1)
      ensures gpio.untaken == old(gpio.untaken)[btn := 0]
    {
      pressed := gpio.TakePress(btn);
      takes := takes[btn := takes[btn] + if pressed then 1 else 0];
    }
  }
}
