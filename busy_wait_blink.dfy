/**
 * The busy-wait blink firmware (`src/main_backup.c`, and the same loop in
 * `src/main_ev2_test.c`): a 32-bit counter counts loop passes, and each time
 * it reaches the threshold the LED state flips, LED0 and P1.05 show it, LED1
 * and P1.06 show its opposite, and the counter restarts.
 */
module BusyWaitBlink {

  /** C's `uint32_t`; the model's increments must stay inside it, so the
      counter provably never wraps. */
  newtype uint32 = x: int | 0 <= x < 0x1_0000_0000

  /** `toggle_threshold`: passes between two toggles. */
  const TOGGLE_THRESHOLD: uint32 := 1000000

  /** The loop's bookkeeping read back from the pass count: after `passes`
      passes there have been `passes / 1000000` toggles and the counter holds
      the remainder. */
  lemma ToggleCount(passes: nat, toggles: nat, counter: nat)
    requires counter < TOGGLE_THRESHOLD as int
    requires passes == toggles * TOGGLE_THRESHOLD as int + counter
    ensures toggles == passes / TOGGLE_THRESHOLD as int && counter == passes % TOGGLE_THRESHOLD as int
  {
  }

  class Blinker {
    var led0: bool
    var led1: bool
    var testPin05: bool
    var testPin06: bool
    var ledState: bool
    var counter: uint32
    /** Loop passes run so far, and toggles made so far. */
    ghost var passes: nat
    ghost var toggles: nat

    /** Between passes: the counter is below the threshold and counts the
        passes since the last toggle, so there has been one toggle per
        threshold passes; LED0 shows the state and each test pin mirrors its
        LED; once a toggle has happened LED1 shows the opposite state. */
    ghost predicate Valid()
      reads this
    {
      && counter < TOGGLE_THRESHOLD
      && passes == toggles * TOGGLE_THRESHOLD as int + counter as int
      && ledState == (toggles % 2 == 1)
      && led0 == ledState && testPin05 == led0 && testPin06 == led1
      && (toggles == 0 ==> !led1)
      && (toggles > 0 ==> led1 == !ledState)
    }

    /** Start-up: all four pins LOW, the LED state off, the counter 0. */
    constructor()
      ensures !led0 && !led1 && !testPin05 && !testPin06
      ensures !ledState && counter == 0 && passes == 0 && toggles == 0
      ensures Valid()
    {
      led0, led1, testPin05, testPin06 := false, false, false, false;
      ledState := false;
      counter := 0;
      passes, toggles := 0, 0;
    }

    /** One pass of the loop. It toggles exactly when the pass count reaches
        a multiple of the threshold (the toggles so far times the threshold);
        the counter never wraps. */
    method Pass() returns (toggled: bool)
      requires Valid()
      modifies this
      ensures Valid() && passes == old(passes) + 1
      ensures toggled <==> passes == toggles * TOGGLE_THRESHOLD as int
      ensures toggled ==> ledState == !old(ledState) && counter == 0 && toggles == old(toggles) + 1
      ensures !toggled ==> ledState == old(ledState) && counter == old(counter) + 1
                           && led0 == old(led0) && led1 == old(led1)
                           && testPin05 == old(testPin05) && testPin06 == old(testPin06)
    {
      counter := counter + 1;
      passes := passes + 1;
      toggled := false;
      if counter >= TOGGLE_THRESHOLD {
        ledState := !ledState;
        led0 := ledState;
        led1 := !ledState;
        testPin05 := ledState;
        testPin06 := !ledState;
        counter := 0;
        toggles := toggles + 1;
        toggled := true;
      }
    }

    /** The first `n` passes of the endless loop. */
    method Run(n: nat) returns (flips: nat)
      requires Valid()
      modifies this
      ensures Valid() && passes == old(passes) + n
      ensures flips == toggles - old(toggles)
      ensures ledState == (old(ledState) != (flips % 2 == 1))
    {
      flips := 0;
      for k := 0 to n
        invariant Valid() && passes == old(passes) + k
        invariant flips == toggles - old(toggles)
        invariant ledState == (old(ledState) != (flips % 2 == 1))
      {
        var toggled := Pass();
        if toggled {
          flips := flips + 1;
        }
      }
    }
  }
}
