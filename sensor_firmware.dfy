/**
 * The SPI test firmware (`src/main.c`): it reads the LSM6DSO32 WHO_AM_I
 * register over SPI at start-up and then loops forever, blinking two LEDs in
 * opposite phase, mirroring them on two test pins, and repeating the SPI
 * check every tenth pass.  Pins are logical levels; the SPI bus is the reply
 * it gives to one transfer.
 */
module SensorFirmware {

  const WHO_AM_I_REG: bv8 := 0x0F
  const WHO_AM_I_VAL: bv8 := 0x6C
  /** The bit that marks an SPI register access as a read. */
  const READ_BIT: bv8 := 0x80
  /** The loop runs the SPI check once every this many passes. */
  const TEST_PERIOD := 10
  /** The success flash toggles LED0 this many times. */
  const FLASH_TOGGLES := 6

  /** What the bus gives back for one two-byte transfer: the status code of
      `spi_transceive` and the two bytes clocked in. */
  datatype Reply = Reply(ret: int, rx0: bv8, rx1: bv8)

  /** The two bytes a register read sends: the address with the read bit,
      then a dummy byte. */
  function ReadFrame(reg: bv8): (tx: seq<bv8>)
    ensures |tx| == 2 && tx[1] == 0
    ensures tx[0] & READ_BIT == READ_BIT && tx[0] & 0x7F == reg & 0x7F
  {
    [reg | READ_BIT, 0]
  }

  /** Reading WHO_AM_I puts 0x8F on the wire. */
  lemma WhoAmIFrame()
    ensures ReadFrame(WHO_AM_I_REG) == [0x8F, 0x00]
  {
  }

  /** `lsm6dso32_read_reg`: sends the read frame and, when the transfer
      succeeds, stores the second byte received in `*data`; on failure
      `*data` keeps its value. The transfer's status is returned. */
  method ReadReg(reg: bv8, data: bv8, reply: Reply) returns (tx: seq<bv8>, ret: int, newData: bv8)
    ensures tx == ReadFrame(reg) && ret == reply.ret
    ensures ret == 0 ==> newData == reply.rx1
    ensures ret != 0 ==> newData == data
  {
    tx := [reg | READ_BIT, 0x00];
    var rx := [0 as bv8, 0 as bv8];
    ret := reply.ret;
    rx := [reply.rx0, reply.rx1];
    newData := data;
    if ret == 0 {
      newData := rx[1];
    }
  }

  /** Whether a WHO_AM_I read with this reply identifies the sensor. */
  predicate Identifies(reply: Reply) {
    reply.ret == 0 && reply.rx1 == WHO_AM_I_VAL
  }

  /** `init_lsm6dso32`: 0 when the SPI device is ready and WHO_AM_I reads
      back 0x6C, -1 otherwise. */
  method InitLsm6(ready: bool, reply: Reply) returns (result: int)
    ensures result == 0 <==> ready && Identifies(reply)
    ensures result == 0 || result == -1
  {
    if !ready {
      return -1;
    }
    // `who_am_i` starts undefined; it is only read after a successful
    // transfer, so its starting value does not matter.
    var tx, ret, whoAmI := ReadReg(WHO_AM_I_REG, 0, reply);
    if ret == 0 {
      if whoAmI == WHO_AM_I_VAL {
        return 0;
      }
    }
    return -1;
  }

  /** One more pass advances the check counter by one, wrapping at ten. */
  lemma CounterStep(p: nat)
    ensures (p + 1) % 10 == if p % 10 == 9 then 0 else p % 10 + 1
  {
    var q := p / 10;
    if p % 10 == 9 {
      assert p + 1 == 10 * (q + 1);
    } else {
      assert p + 1 == 10 * q + (p % 10 + 1);
    }
  }

  /** One more pass flips the parity of the pass count. */
  lemma ParityStep(p: nat)
    ensures ((p + 1) % 2 == 1) == !(p % 2 == 1)
  {
    var h := p / 2;
    if p % 2 == 1 {
      assert p + 1 == 2 * (h + 1);
    } else {
      assert p + 1 == 2 * h + 1;
    }
  }

  /** The board as `main` drives it. */
  class Board {
    var led0: bool
    var led1: bool
    var testPin05: bool
    var testPin06: bool
    var ledState: bool
    var testCount: int
    /** The result of the start-up sensor check. */
    var spiResult: int
    /** How many passes of the main loop have run. */
    ghost var passes: nat

    /** Between passes: the check counter is the number of passes modulo
        ten, the LED state flips every pass, and after the first pass LED0
        and P1.05 show the state while LED1 and P1.06 show its opposite. */
    ghost predicate Valid()
      reads this
    {
      && 0 <= testCount < TEST_PERIOD
      && testCount == passes % TEST_PERIOD
      && ledState == (passes % 2 == 1)
      && (passes == 0 ==> !led0 && !led1 && !testPin05 && !testPin06)
      && (passes > 0 ==>
            led0 == ledState && testPin05 == ledState && led1 == !ledState && testPin06 == !ledState)
    }

    /** Start-up: every pin is configured LOW, the sensor is checked, and the
        loop state starts at LED off and count 0. */
    constructor(ready: bool, reply: Reply)
      ensures !led0 && !led1 && !testPin05 && !testPin06
      ensures !ledState && testCount == 0 && passes == 0
      ensures spiResult == 0 <==> ready && Identifies(reply)
      ensures Valid()
    {
      led0, led1, testPin05, testPin06 := false, false, false, false;
      var result := InitLsm6(ready, reply);
      spiResult := result;
      ledState := false;
      testCount := 0;
      passes := 0;
    }

    /** The success flash: LED0 toggles six times and so ends where it
        started. */
    method Flash()
      modifies this
      ensures led0 == old(led0)
      ensures led1 == old(led1) && testPin05 == old(testPin05) && testPin06 == old(testPin06)
      ensures ledState == old(ledState) && testCount == old(testCount)
      ensures spiResult == old(spiResult) && passes == old(passes)
    {
      for i := 0 to FLASH_TOGGLES
        invariant led0 == (if i % 2 == 0 then old(led0) else !old(led0))
        invariant led1 == old(led1) && testPin05 == old(testPin05) && testPin06 == old(testPin06)
        invariant ledState == old(ledState) && testCount == old(testCount)
        invariant spiResult == old(spiResult) && passes == old(passes)
      {
        led0 := !led0;
      }
    }

    /** One pass of the main loop; `reply` is what the bus answers if this
        pass runs the SPI check. The check runs exactly on every tenth pass,
        and the flash never disturbs the LED pattern. */
    method Pass(reply: Reply) returns (tested: bool, flashed: bool)
      requires Valid()
      modifies this
      ensures Valid() && passes == old(passes) + 1
      ensures ledState == !old(ledState)
      ensures led0 == ledState && testPin05 == ledState && led1 == !ledState && testPin06 == !ledState
      ensures tested <==> passes % TEST_PERIOD == 0
      ensures flashed <==> tested && Identifies(reply)
      ensures spiResult == old(spiResult)
    {
      CounterStep(passes);
      ParityStep(passes);
      ledState := !ledState;
      led0 := ledState;
      led1 := !ledState;
      testPin05 := ledState;
      testPin06 := !ledState;
      passes := passes + 1;
      tested, flashed := false, false;
      testCount := testCount + 1;
      if testCount >= TEST_PERIOD {
        testCount := 0;
        tested := true;
        var tx, ret, whoAmI := ReadReg(WHO_AM_I_REG, 0, reply);
        if ret == 0 && whoAmI == WHO_AM_I_VAL {
          Flash();
          flashed := true;
        }
      }
    }

    /** The first `|replies|` passes of the endless loop; `replies[k]` is the
        bus's answer on pass `k` should it run the check. */
    method Run(replies: seq<Reply>) returns (tests: nat)
      requires Valid()
      modifies this
      ensures Valid() && passes == old(passes) + |replies|
      ensures tests == (old(passes) + |replies|) / TEST_PERIOD - old(passes) / TEST_PERIOD
    {
      tests := 0;
      for k := 0 to |replies|
        invariant Valid() && passes == old(passes) + k
        invariant tests == passes / TEST_PERIOD - old(passes) / TEST_PERIOD
      {
        var tested, flashed := Pass(replies[k]);
        if tested {
          tests := tests + 1;
        }
      }
    }
  }
}
