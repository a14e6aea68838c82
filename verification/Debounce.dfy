/** `drivers/gpio_drv.c`: the push button debouncer, scan by scan, and what it amounts to over a
    button's whole history of raw levels. */
module Debounce {

  const DEBOUNCE_SCANS: nat := 3
  const BTN_COUNT: nat := 2

  /** Every raw level read from one button: the one at start-up, then one per scan. */
  datatype History = Seed(level: bool) | Scan(earlier: History, raw: bool)

  /** Debounced level, consecutive scans that disagreed with it, presses so far. */
  datatype Button = Button(isDown: bool, mismatchScans: nat, presses: nat)

  /** One scan of the debouncer. */
  function ScanOne(b: Button, raw: bool): Button {
    if raw == b.isDown then b.(mismatchScans := 0)
    else if b.mismatchScans + 1 < DEBOUNCE_SCANS then b.(mismatchScans := b.mismatchScans + 1)
    else Button(raw, 0, b.presses + if raw then 1 else 0)
  }

  function Debounced(h: History): Button {
    match h
    case Seed(level) => Button(level, 0, 0)
    case Scan(earlier, raw) => ScanOne(Debounced(earlier), raw)
  }

  // ---- the reference: three equal scans in a row ----

  /** The last `n` scans all read `level`; the seed is not a scan. */
  predicate LastScans(h: History, level: bool, n: nat) {
    n == 0 || (h.Scan? && h.raw == level && LastScans(h.earlier, level, n - 1))
  }

  /** The value of the most recent window of three equal scans, or the seed without one. */
  function WindowLevel(h: History): bool {
    match h
    case Seed(level) => level
    case Scan(earlier, raw) =>
      if LastScans(h, raw, DEBOUNCE_SCANS) then raw else WindowLevel(earlier)
  }

  /** How often that value went from released to pressed. */
  function Presses(h: History): nat {
    match h
    case Seed(_) => 0
    case Scan(earlier, _) => Presses(earlier) + if WindowLevel(h) && !WindowLevel(earlier) then 1 else 0
  }

  /** The mismatch counter is the length of the latest run of scans opposed to the level shown. */
  ghost predicate CountsRun(h: History, b: Button) {
    && b.mismatchScans < DEBOUNCE_SCANS
    && LastScans(h, !b.isDown, b.mismatchScans)
    && !LastScans(h, !b.isDown, b.mismatchScans + 1)
  }

  lemma LastScansShorter(h: History, level: bool, n: nat, m: nat)
    requires LastScans(h, level, n) && m <= n
    ensures LastScans(h, level, m)
  {
    if m > 0 {
      LastScansShorter(h.earlier, level, n - 1, m - 1);
    }
  }

  /** After any raw trace the debouncer shows the most recent three-scan window, and has latched
      exactly the released-to-pressed changes of it. */
  lemma {:induction false} DebouncedIsWindow(h: History)
    ensures Debounced(h).isDown == WindowLevel(h)
    ensures Debounced(h).presses == Presses(h)
    ensures CountsRun(h, Debounced(h))
  {
    if h.Scan? {
      var before, b := Debounced(h.earlier), Debounced(h);
      DebouncedIsWindow(h.earlier);
      if h.raw == before.isDown {
        // The level holds, whether or not this scan completes a window.
        assert !LastScans(h, !h.raw, 1);
      } else if before.mismatchScans + 1 < DEBOUNCE_SCANS {
        if LastScans(h, h.raw, DEBOUNCE_SCANS) {
          LastScansShorter(h.earlier, h.raw, DEBOUNCE_SCANS - 1, before.mismatchScans + 1);
          assert false;
        }
      } else {
        assert before.mismatchScans == DEBOUNCE_SCANS - 1;
        assert !LastScans(h, !h.raw, 1);
      }
    }
  }

  /** Bounces are ignored: the debounced level moves at a scan exactly when that scan is the third
      in a row to read the other level. */
  lemma ChangesOnThirdScan(h: History, raw: bool)
    ensures
      Debounced(Scan(h, raw)).isDown != Debounced(h).isDown <==>
      raw != Debounced(h).isDown && LastScans(h, raw, DEBOUNCE_SCANS - 1)
  {
    DebouncedIsWindow(h);
    DebouncedIsWindow(Scan(h, raw));
    var b := Debounced(h);
    if raw != b.isDown {
      if b.mismatchScans < DEBOUNCE_SCANS - 1 && LastScans(h, raw, DEBOUNCE_SCANS - 1) {
        LastScansShorter(h, raw, DEBOUNCE_SCANS - 1, b.mismatchScans + 1);
      }
    }
  }

  /** A wrong seed is corrected by the third scan; that reports a press exactly when the button was
      seeded as released while it is held. */
  lemma WrongSeed(level: bool)
    ensures
      var h := Scan(Scan(Scan(Seed(level), !level), !level), !level);
      Debounced(h) == Button(!level, 0, Presses(h)) && (Presses(h) == 1 <==> !level)
  {
    var h1 := Scan(Seed(level), !level);
    var h2 := Scan(h1, !level);
    assert !LastScans(Seed(level), !level, 1) && !LastScans(Seed(level), !level, 2);
    assert !LastScans(h1, !level, 2) && !LastScans(h1, !level, 3);
    assert !LastScans(h2, !level, 3);
    assert WindowLevel(h1) == level && Presses(h1) == 0;
    assert WindowLevel(h2) == level && Presses(h2) == 0;
    DebouncedIsWindow(Scan(h2, !level));
    assert LastScans(h2, !level, 2);
  }

  // ---- the driver ----

  class GpioDriver {
    var ready: bool
    const isDown: array<bool>
    const mismatchScans: array<nat>
    const pressLatched: array<bool>

    /** Raw history of each button, and its presses that were not taken yet. */
    ghost var history: seq<History>
    ghost var untaken: seq<nat>

    ghost const Repr: set<object> := {this, isDown, mismatchScans, pressLatched}

    ghost predicate Shape()
      reads this
    {
      && isDown.Length == mismatchScans.Length == pressLatched.Length == BTN_COUNT
      && isDown != pressLatched
      && |history| == |untaken| == BTN_COUNT
    }

    /** The fields of one button agree with its history. */
    ghost predicate Agrees(btn: nat)
      requires btn < BTN_COUNT && Shape()
      reads Repr
    {
      && isDown[btn] == Debounced(history[btn]).isDown
      && mismatchScans[btn] == Debounced(history[btn]).mismatchScans
      && pressLatched[btn] == (untaken[btn] > 0)
    }

    ghost predicate Valid()
      reads Repr
    {
      Shape() && forall btn :: 0 <= btn < BTN_COUNT ==> Agrees(btn)
    }

    /** `gpio_drv_init`: each history begins with its seed, and no press is pending. */
    constructor (raw: seq<bool>)
      requires |raw| == BTN_COUNT
      ensures Valid() && fresh(Repr) && ready
      ensures history == [Seed(raw[0]), Seed(raw[1])] && untaken == [0, 0]
    {
      isDown := new bool[BTN_COUNT](i requires 0 <= i < BTN_COUNT => raw[i]);
      mismatchScans := new nat[BTN_COUNT](_ => 0);
      pressLatched := new bool[BTN_COUNT](_ => false);
      ready := true;
      history, untaken := [Seed(raw[0]), Seed(raw[1])], [0, 0];
    }

    /** `gpio_drv_btn_scan`: one raw level per button. */
    method BtnScan(raw: seq<bool>)
      requires Valid() && |raw| == BTN_COUNT
      modifies Repr
      ensures Valid() && ready == old(ready)
      ensures !ready ==> history == old(history) && untaken == old(untaken)
      ensures ready ==> forall btn :: 0 <= btn < BTN_COUNT ==>
                && history[btn] == Scan(old(history[btn]), raw[btn])
                && untaken[btn] == old(untaken[btn])
                                   + Debounced(history[btn]).presses - Debounced(old(history[btn])).presses
    {
      if !ready {
        return;
      }
      for btn := 0 to BTN_COUNT
        invariant Valid() && ready
        invariant forall k :: btn <= k < BTN_COUNT ==> history[k] == old(history[k]) && untaken[k] == old(untaken[k])
        invariant forall k :: 0 <= k < btn ==>
                    && history[k] == Scan(old(history[k]), raw[k])
                    && untaken[k] == old(untaken[k])
                                     + Debounced(history[k]).presses - Debounced(old(history[k])).presses
      {
        ScanButton(btn, raw[btn]);
      }
    }

    /** The debouncer's loop body. */
    method ScanButton(btn: nat, rawDown: bool)
      requires Valid() && btn < BTN_COUNT
      modifies isDown, mismatchScans, pressLatched, this`history, this`untaken
      ensures Valid()
      ensures history == old(history)[btn := Scan(old(history[btn]), rawDown)]
      ensures untaken == old(untaken)[btn := old(untaken[btn]) + Debounced(history[btn]).presses
                                             - Debounced(old(history[btn])).presses]
    {
      assert Agrees(btn);
      ghost var h := history[btn];
      history := history[btn := Scan(h, rawDown)];
      if rawDown == isDown[btn] {
        mismatchScans[btn] := 0;
      } else {
        mismatchScans[btn] := mismatchScans[btn] + 1;
        if mismatchScans[btn] >= DEBOUNCE_SCANS {
          isDown[btn] := rawDown;
          mismatchScans[btn] := 0;
          if rawDown {
            pressLatched[btn] := true;
            untaken := untaken[btn := untaken[btn] + 1];
          }
        }
      }
      DebouncedIsWindow(h);
      assert Agrees(btn);
      forall k | 0 <= k < BTN_COUNT ensures Agrees(k) {
        if k != btn {
          assert old(Agrees(k));
        }
      }
    }

    /** `gpio_drv_btn_take_press`: true once for the presses since the last call. */
    method TakePress(btn: nat) returns (pressed: bool)
      requires Valid()
      modifies pressLatched, this`untaken
      ensures Valid()
      ensures btn >= BTN_COUNT ==> !pressed && untaken == old(untaken)
      ensures btn < BTN_COUNT ==> pressed == (old(untaken[btn]) > 0) && untaken == old(untaken)[btn := 0]
    {
      if btn >= BTN_COUNT {
        return false;
      }
      assert Agrees(btn);
      pressed := pressLatched[btn];
      pressLatched[btn] := false;
      untaken := untaken[btn := 0];
      forall k | 0 <= k < BTN_COUNT ensures Agrees(k) {
        if k != btn {
          assert old(Agrees(k));
        }
      }
    }
  }
}
