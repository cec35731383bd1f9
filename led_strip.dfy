/**
 * The driver of the Qwiic LED stick (APA102C LEDs behind an ATtiny on I2C),
 * A10G_cloud/Application/src/LED_Strip/APA102C_LED_Strip.c.
 *
 * Every operation fills a small `reg` buffer and hands it, with a command
 * byte, to `platform_write`, which lays out the I2C frame [command] ++ data in
 * the global `msgOutLED` and sends it to address 0x23. The stick accepts at
 * most 16 bytes per transmission, so a colour array is sent as packets of at
 * most twelve colour values, each preceded by [count, offset].
 *
 * The I2C transfers are recorded in `sent`; what `I2cWriteDataWait` answers
 * for the n-th transfer is the oracle `bus(n)`.
 */
module LedStrip {
  import opened Machine

  const LedAddress: u8 := 0x23

  const CommandWriteSingleLedColor: u8 := 0x71
  const CommandWriteAllLedColor: u8 := 0x72
  const CommandWriteRedArray: u8 := 0x73
  const CommandWriteGreenArray: u8 := 0x74
  const CommandWriteBlueArray: u8 := 0x75
  const CommandWriteSingleLedBrightness: u8 := 0x76
  const CommandWriteAllLedBrightness: u8 := 0x77
  const CommandWriteAllLedOff: u8 := 0x78

  const ErrorNone: u32 := 0
  const MaxBrightness: nat := 31

  /** One I2C write: the device address and the bytes sent (`msgOut[0 .. lenOut)`). */
  datatype Transfer = Transfer(address: u8, bytes: seq<u8>)

  // ---------------------------------------------------------------------------
  // The packets of one colour array
  // ---------------------------------------------------------------------------

  /** The n-th full packet: [12, 12 n] and the twelve values from index 12 n. */
  function FullPacket(a: seq<u8>, n: nat): seq<u8>
    requires 12 * (n + 1) <= |a|
  {
    [12, ToU8(12 * n)] + a[12 * n..12 * (n + 1)]
  }

  /** The first k full packets, in order. */
  function FullPackets(a: seq<u8>, k: nat): seq<seq<u8>>
    requires 12 * k <= |a|
  {
    seq(k, i requires 0 <= i < k => FullPacket(a, i))
  }

  /** The packet of the remainder: [L % 12, 12 (L / 12)] and the last L % 12 values. */
  function TailPacket(a: seq<u8>): seq<u8> {
    [ToU8(|a| % 12), ToU8(12 * (|a| / 12))] + a[12 * (|a| / 12)..]
  }

  /** The packets setLEDColor_index_all sends for one colour array, in order. */
  function ColorPackets(a: seq<u8>): seq<seq<u8>> {
    FullPackets(a, |a| / 12) + (if |a| % 12 != 0 then [TailPacket(a)] else [])
  }

  /** The colour values a packet carries: everything after its two header bytes. */
  function Body(p: seq<u8>): seq<u8> {
    if |p| >= 2 then p[2..] else []
  }

  /** What the stick reassembles from a run of packets: their bodies, concatenated in order. */
  function Payload(ps: seq<seq<u8>>): seq<u8> {
    if ps == [] then [] else Payload(ps[..|ps| - 1]) + Body(ps[|ps| - 1])
  }

  /** Appending a packet appends its body to the payload. */
  lemma PayloadSnoc(ps: seq<seq<u8>>, p: seq<u8>)
    ensures Payload(ps + [p]) == Payload(ps) + Body(p)
  {
    assert (ps + [p])[..|ps|] == ps;
  }

  /** The first k full packets are the first k - 1 followed by packet k - 1. */
  lemma FullPacketsSnoc(a: seq<u8>, k: nat)
    requires 0 < k && 12 * k <= |a|
    ensures FullPackets(a, k) == FullPackets(a, k - 1) + [FullPacket(a, k - 1)]
  {
  }

  /** The body of full packet n is the twelve values from index 12 n. */
  lemma FullPacketBody(a: seq<u8>, n: nat)
    requires 12 * (n + 1) <= |a|
    ensures Body(FullPacket(a, n)) == a[12 * n..12 * n + 12]
  {
  }

  lemma {:induction false} FullPacketsPayload(a: seq<u8>, k: nat)
    requires 12 * k <= |a|
    ensures Payload(FullPackets(a, k)) == a[..12 * k]
  {
    if k > 0 {
      FullPacketsPayload(a, k - 1);
      FullPacketsPayloadStep(a, k);
    }
  }

  /** One more full packet extends the payload by its twelve values. */
  lemma FullPacketsPayloadStep(a: seq<u8>, k: nat)
    requires 0 < k && 12 * k <= |a|
    requires Payload(FullPackets(a, k - 1)) == a[..12 * (k - 1)]
    ensures Payload(FullPackets(a, k)) == a[..12 * k]
  {
    var m := 12 * (k - 1);
    var ps, p := FullPackets(a, k - 1), FullPacket(a, k - 1);
    FullPacketsSnoc(a, k);
    PayloadSnoc(ps, p);
    FullPacketBody(a, k - 1);
    SliceSplit(a, m, m + 12);
  }

  lemma SliceSplit(a: seq<u8>, m: nat, n: nat)
    requires m <= n <= |a|
    ensures a[..n] == a[..m] + a[m..n]
  {
  }

  /** A prefix of the full packets is the full packets of the prefix. */
  lemma FullPacketsPrefix(a: seq<u8>, k: nat, i: nat)
    requires 12 * k <= |a| && i <= k
    ensures FullPackets(a, k)[..i] == FullPackets(a, i)
  {
  }

  /**
   * The round trip: the bodies of one colour's packets, concatenated in the
   * order they are sent, give back the colour array exactly.
   */
  lemma ColorPacketsRoundTrip(a: seq<u8>)
    ensures Payload(ColorPackets(a)) == a
  {
    var q := |a| / 12;
    FullPacketsPayload(a, q);
    if |a| % 12 != 0 {
      PayloadSnoc(FullPackets(a, q), TailPacket(a));
      assert Body(TailPacket(a)) == a[12 * q..];
      assert a == a[..12 * q] + a[12 * q..];
    } else {
      assert ColorPackets(a) == FullPackets(a, q);
      assert a[..12 * q] == a;
    }
  }

  /** The header of packet i and the number of values sent before it. */
  lemma ColorPacketAt(a: seq<u8>, i: nat)
    requires |a| <= 255 && i < |ColorPackets(a)|
    ensures var ps := ColorPackets(a);
      3 <= |ps[i]| <= 14 && ps[i][0] as int == |ps[i]| - 2 &&
      ps[i][1] as int == 12 * i <= 252 && ps[i][1] as int == |Payload(ps[..i])|
  {
    var q := |a| / 12;
    var ps := ColorPackets(a);
    assert q <= 21;
    if i < q {
      assert ps[i] == FullPacket(a, i);
      assert ps[..i] == FullPackets(a, i);
      FullPacketsPayload(a, i);
    } else {
      assert i == q && |a| % 12 != 0;
      assert ps[i] == TailPacket(a);
      assert ps[..i] == FullPackets(a, q);
      FullPacketsPayload(a, q);
    }
  }

  /**
   * The shape of the packets for an array of at most 255 values (the length is
   * a uint8_t): floor(L/12) full packets of 14 bytes, then one packet of
   * L % 12 + 2 bytes exactly when L % 12 is not 0. Each packet's first byte is
   * its number of values, its second byte (which fits a byte, being at most
   * 252) is the index of its first value in the array, and no packet exceeds
   * the 14 bytes it takes of `reg[20]`.
   */
  lemma ColorPacketsShape(a: seq<u8>)
    requires |a| <= 255
    ensures var ps := ColorPackets(a);
      |ps| == |a| / 12 + (if |a| % 12 != 0 then 1 else 0) &&
      (forall i | 0 <= i < |ps| ::
        3 <= |ps[i]| <= 14 && ps[i][0] as int == |ps[i]| - 2 &&
        ps[i][1] as int == 12 * i <= 252 && ps[i][1] as int == |Payload(ps[..i])|) &&
      (forall i | 0 <= i < |a| / 12 :: |ps[i]| == 14) &&
      (|a| % 12 != 0 ==> |ps[|ps| - 1]| == |a| % 12 + 2)
  {
    var ps := ColorPackets(a);
    forall i | 0 <= i < |ps|
      ensures 3 <= |ps[i]| <= 14 && ps[i][0] as int == |ps[i]| - 2
      ensures ps[i][1] as int == 12 * i <= 252 && ps[i][1] as int == |Payload(ps[..i])|
    {
      ColorPacketAt(a, i);
    }
  }

  /** The I2C transfers that send a run of packets under one command. */
  function Frames(command: u8, ps: seq<seq<u8>>): seq<Transfer> {
    seq(|ps|, i requires 0 <= i < |ps| => Transfer(LedAddress, [command] + ps[i]))
  }

  /** setLEDColor_index_all: every red packet, then every green one, then every blue one. */
  function IndexAllFrames(red: seq<u8>, green: seq<u8>, blue: seq<u8>): seq<Transfer> {
    Frames(CommandWriteRedArray, ColorPackets(red)) + Frames(CommandWriteGreenArray, ColorPackets(green))
      + Frames(CommandWriteBlueArray, ColorPackets(blue))
  }

  /** What the stick reads as packets from a run of transfers: each frame without its command byte. */
  function Packets(fs: seq<Transfer>): seq<seq<u8>> {
    seq(|fs|, i requires 0 <= i < |fs| => if |fs[i].bytes| >= 1 then fs[i].bytes[1..] else [])
  }

  /** Stripping the command bytes from the frames of a run of packets gives the packets back. */
  lemma PacketsOfFrames(command: u8, ps: seq<seq<u8>>)
    ensures Packets(Frames(command, ps)) == ps
  {
    var fs := Frames(command, ps);
    forall i | 0 <= i < |ps|
      ensures Packets(fs)[i] == ps[i]
    {
      assert fs[i].bytes == [command] + ps[i];
    }
  }

  /** Sending one more packet appends one frame. */
  lemma FramesSnoc(command: u8, ps: seq<seq<u8>>, p: seq<u8>)
    ensures Frames(command, ps + [p]) == Frames(command, ps) + [Transfer(LedAddress, [command] + p)]
  {
  }

  /** Three runs of frames back to back: each block keeps its command and gives back its packets. */
  lemma ThreeBlocks(pr: seq<seq<u8>>, pg: seq<seq<u8>>, pb: seq<seq<u8>>)
    ensures var fs := Frames(CommandWriteRedArray, pr) + Frames(CommandWriteGreenArray, pg)
        + Frames(CommandWriteBlueArray, pb);
      var nr := |pr|;
      var ng := |pg|;
      |fs| == nr + ng + |pb| &&
      (forall i | 0 <= i < |fs| :: fs[i].address == LedAddress && |fs[i].bytes| >= 1) &&
      (forall i | 0 <= i < nr :: fs[i].bytes[0] == CommandWriteRedArray) &&
      (forall i | nr <= i < nr + ng :: fs[i].bytes[0] == CommandWriteGreenArray) &&
      (forall i | nr + ng <= i < |fs| :: fs[i].bytes[0] == CommandWriteBlueArray) &&
      Packets(fs[..nr]) == pr && Packets(fs[nr..nr + ng]) == pg && Packets(fs[nr + ng..]) == pb
  {
    var fr := Frames(CommandWriteRedArray, pr);
    var fg := Frames(CommandWriteGreenArray, pg);
    var fb := Frames(CommandWriteBlueArray, pb);
    var fs := fr + fg + fb;
    var nr := |pr|;
    var ng := |pg|;
    assert fs[..nr] == fr;
    assert fs[nr..nr + ng] == fg;
    assert fs[nr + ng..] == fb;
    PacketsOfFrames(CommandWriteRedArray, pr);
    PacketsOfFrames(CommandWriteGreenArray, pg);
    PacketsOfFrames(CommandWriteBlueArray, pb);
    forall i | 0 <= i < |fs|
      ensures fs[i].address == LedAddress && |fs[i].bytes| >= 1
      ensures i < nr ==> fs[i].bytes[0] == CommandWriteRedArray
      ensures nr <= i < nr + ng ==> fs[i].bytes[0] == CommandWriteGreenArray
      ensures nr + ng <= i ==> fs[i].bytes[0] == CommandWriteBlueArray
    {
      if i < nr {
        assert fs[i] == fr[i];
      } else if i < nr + ng {
        assert fs[i] == fg[i - nr];
      } else {
        assert fs[i] == fb[i - nr - ng];
      }
    }
  }

  /**
   * The three colours go out in blocks: the red packets come first and
   * reassemble the red array, then the green ones, then the blue ones; every
   * transfer goes to the stick's address under its colour's command.
   */
  lemma IndexAllFramesOrder(red: seq<u8>, green: seq<u8>, blue: seq<u8>)
    ensures var fs := IndexAllFrames(red, green, blue);
      var nr := |ColorPackets(red)|;
      var ng := |ColorPackets(green)|;
      var nb := |ColorPackets(blue)|;
      |fs| == nr + ng + nb &&
      (forall i | 0 <= i < |fs| :: fs[i].address == LedAddress && |fs[i].bytes| >= 1) &&
      (forall i | 0 <= i < nr :: fs[i].bytes[0] == CommandWriteRedArray) &&
      (forall i | nr <= i < nr + ng :: fs[i].bytes[0] == CommandWriteGreenArray) &&
      (forall i | nr + ng <= i < |fs| :: fs[i].bytes[0] == CommandWriteBlueArray) &&
      Payload(Packets(fs[..nr])) == red &&
      Payload(Packets(fs[nr..nr + ng])) == green &&
      Payload(Packets(fs[nr + ng..])) == blue
  {
    ThreeBlocks(ColorPackets(red), ColorPackets(green), ColorPackets(blue));
    ColorPacketsRoundTrip(red);
    ColorPacketsRoundTrip(green);
    ColorPacketsRoundTrip(blue);
  }

  /**
   * The status an operation returns when `error` starts at `initial` and is
   * overwritten by every transfer from number `from` up to number `to`: the
   * status of the last one, or `initial` when none was made.
   */
  function LastError(initial: u32, from: nat, to: nat, bus: nat -> i32): u32 {
    if to <= from then initial else Wrap32(bus(to - 1))
  }

  /** PER_BRIGHTNESS(per): per percent of the maximum brightness 31, by integer division. */
  function PerBrightness(per: nat): (b: nat)
    ensures per <= 100 ==> b <= MaxBrightness
    ensures b * 100 <= per * MaxBrightness < (b + 1) * 100
  {
    per * MaxBrightness / 100
  }

  // ---------------------------------------------------------------------------
  // The driver, in place
  // ---------------------------------------------------------------------------

  class LedStick {
    /** msgOutLED: the frame buffer platform_write fills. */
    const msgOut: array<u8>
    /** The fields of LEDData that platform_write sets. */
    var address: u8
    var lenOut: nat
    var lenIn: nat
    /** Every transfer made so far, in order. */
    var sent: seq<Transfer>
    /** The status I2cWriteDataWait returns for the n-th transfer. */
    const bus: nat -> i32

    ghost predicate Valid()
      reads this
    {
      msgOut.Length == 64
    }

    constructor (bus: nat -> i32)
      ensures Valid() && fresh(msgOut) && sent == [] && this.bus == bus
    {
      msgOut := new u8[64](_ => 0);
      address := 0;
      lenOut := 0;
      lenIn := 0;
      sent := [];
      this.bus := bus;
    }

    /** platform_write: the frame [reg] ++ data to address 0x23, lenOut = len + 1. */
    method PlatformWrite(reg: u8, data: seq<u8>) returns (ret: i32)
      requires Valid() && |data| < msgOut.Length
      modifies msgOut, this`address, this`lenOut, this`lenIn, this`sent
      ensures Valid()
      ensures lenOut == |data| + 1 && lenIn == |data| && msgOut[..lenOut] == [reg] + data
      ensures address == LedAddress
      ensures sent == old(sent) + [Transfer(LedAddress, [reg] + data)]
      ensures ret == bus(|old(sent)|)
    {
      msgOut[0] := reg;
      var i := 0;
      while i < |data|
        invariant 0 <= i <= |data|
        modifies msgOut
        invariant msgOut[0] == reg && msgOut[1..i + 1] == data[..i]
      {
        msgOut[i + 1] := data[i];
        i := i + 1;
      }
      address := LedAddress;
      lenOut := |data| + 1;
      lenIn := |data|;
      assert data[..i] == data;
      assert msgOut[..lenOut] == [reg] + msgOut[1..i + 1];
      sent := sent + [Transfer(address, msgOut[..lenOut])];
      ret := bus(|sent| - 1);
    }

    /** setLEDColor_index: command 0x71 with [number, red, green, blue]. */
    method SetLedColorIndex(number: u8, red: u8, green: u8, blue: u8) returns (error: u32)
      requires Valid()
      modifies msgOut, this`address, this`lenOut, this`lenIn, this`sent
      ensures Valid()
      ensures sent == old(sent) + [Transfer(LedAddress, [CommandWriteSingleLedColor, number, red, green, blue])]
      ensures error == Wrap32(bus(|old(sent)|))
    {
      // The clamps of the C code compare a uint8_t with 255 and 0 and never fire.
      var ret := PlatformWrite(CommandWriteSingleLedColor, [number, red, green, blue]);
      assert [CommandWriteSingleLedColor] + [number, red, green, blue] == [CommandWriteSingleLedColor, number, red, green, blue];
      error := Wrap32(ret);
    }

    /** setLEDColor_all: command 0x72 with [red, green, blue]. */
    method SetLedColorAll(red: u8, green: u8, blue: u8) returns (error: u32)
      requires Valid()
      modifies msgOut, this`address, this`lenOut, this`lenIn, this`sent
      ensures Valid()
      ensures sent == old(sent) + [Transfer(LedAddress, [CommandWriteAllLedColor, red, green, blue])]
      ensures error == Wrap32(bus(|old(sent)|))
    {
      var ret := PlatformWrite(CommandWriteAllLedColor, [red, green, blue]);
      assert [CommandWriteAllLedColor] + [red, green, blue] == [CommandWriteAllLedColor, red, green, blue];
      error := Wrap32(ret);
    }

    /**
     * setLEDBrightness_index: command 0x76 with [number, brightness] as passed;
     * the clamp to 31 runs after the buffer is filled and changes nothing sent.
     */
    method SetLedBrightnessIndex(number: u8, brightness: u8) returns (error: u32)
      requires Valid()
      modifies msgOut, this`address, this`lenOut, this`lenIn, this`sent
      ensures Valid()
      ensures sent == old(sent) + [Transfer(LedAddress, [CommandWriteSingleLedBrightness, number, brightness])]
      ensures error == Wrap32(bus(|old(sent)|))
    {
      var reg := [number, brightness];
      var clamped := if brightness > 31 then 31 else brightness;
      var ret := PlatformWrite(CommandWriteSingleLedBrightness, reg);
      assert [CommandWriteSingleLedBrightness] + reg == [CommandWriteSingleLedBrightness, number, brightness];
      error := Wrap32(ret);
    }

    /** setLEDBrightness_all: command 0x77 with [brightness] as passed, unclamped. */
    method SetLedBrightnessAll(brightness: u8) returns (error: u32)
      requires Valid()
      modifies msgOut, this`address, this`lenOut, this`lenIn, this`sent
      ensures Valid()
      ensures sent == old(sent) + [Transfer(LedAddress, [CommandWriteAllLedBrightness, brightness])]
      ensures error == Wrap32(bus(|old(sent)|))
    {
      var reg := brightness;
      var clamped := if brightness > 31 then 31 else brightness;
      var ret := PlatformWrite(CommandWriteAllLedBrightness, [reg]);
      assert [CommandWriteAllLedBrightness] + [reg] == [CommandWriteAllLedBrightness, brightness];
      error := Wrap32(ret);
    }

    /** LEDOff: command 0x78 and no data byte. */
    method LedOff() returns (error: u32)
      requires Valid()
      modifies msgOut, this`address, this`lenOut, this`lenIn, this`sent
      ensures Valid()
      ensures sent == old(sent) + [Transfer(LedAddress, [CommandWriteAllLedOff])]
      ensures error == Wrap32(bus(|old(sent)|))
    {
      var ret := PlatformWrite(CommandWriteAllLedOff, []);
      assert [CommandWriteAllLedOff] + [] == [CommandWriteAllLedOff];
      error := Wrap32(ret);
    }

    /** Builds one packet in `reg`: [count, start] and the `count` values from index `start`. */
    static method FillPacket(reg: array<u8>, a: seq<u8>, start: nat, count: nat)
      requires reg.Length == 20 && count <= 12 && start + count <= |a|
      modifies reg
      ensures reg[..count + 2] == [ToU8(count), ToU8(start)] + a[start..start + count]
    {
      reg[0] := ToU8(count);
      reg[1] := ToU8(start);
      var i := 0;
      while i < count
        invariant 0 <= i <= count
        invariant reg[0] == ToU8(count) && reg[1] == ToU8(start)
        invariant reg[2..i + 2] == a[start..start + i]
      {
        reg[i + 2] := a[start + i];
        i := i + 1;
      }
      assert reg[..count + 2] == [reg[0], reg[1]] + reg[2..count + 2];
    }

    /**
     * One colour's share of setLEDColor_index_all: the full packets, then the
     * remainder packet if any, each built in `reg` and written under `command`;
     * `error` takes the status of every write.
     */
    method SendColorArray(reg: array<u8>, command: u8, a: seq<u8>, errorIn: u32) returns (error: u32)
      requires Valid() && reg.Length == 20 && reg != msgOut && |a| <= 255
      modifies reg, msgOut, this`address, this`lenOut, this`lenIn, this`sent
      ensures Valid()
      ensures sent == old(sent) + Frames(command, ColorPackets(a))
      ensures error == LastError(errorIn, |old(sent)|, |sent|, bus)
    {
      error := errorIn;
      var len := |a| % 12;
      var n := 0;
      while n < |a| / 12
        invariant 0 <= n <= |a| / 12 && Valid()
        invariant sent == old(sent) + Frames(command, FullPackets(a, n))
        invariant error == LastError(errorIn, |old(sent)|, |sent|, bus)
      {
        FillPacket(reg, a, 12 * n, 12);
        var ret := PlatformWrite(command, reg[..14]);
        error := Wrap32(ret);
        FramesSnoc(command, FullPackets(a, n), FullPacket(a, n));
        FullPacketsSnoc(a, n + 1);
        n := n + 1;
      }
      if len != 0 {
        FillPacket(reg, a, 12 * n, len);
        assert a[12 * n..12 * n + len] == a[12 * (|a| / 12)..];
        var ret := PlatformWrite(command, reg[..len + 2]);
        error := Wrap32(ret);
        FramesSnoc(command, FullPackets(a, n), TailPacket(a));
      }
    }

    /**
     * setLEDColor_index_all: the red, green and blue arrays of `length` values
     * sent as packets; the result is the status of the last write only.
     */
    method SetLedColorIndexAll(red: seq<u8>, green: seq<u8>, blue: seq<u8>) returns (error: u32)
      requires Valid() && |red| <= 255 && |green| == |red| && |blue| == |red|
      modifies msgOut, this`address, this`lenOut, this`lenIn, this`sent
      ensures Valid()
      ensures sent == old(sent) + IndexAllFrames(red, green, blue)
      ensures error == LastError(ErrorNone, |old(sent)|, |sent|, bus)
    {
      // The clamps of the C code compare uint8_t values with 255 and 0 and never fire.
      var reg := new u8[20](_ => 0);
      error := ErrorNone;
      error := SendColorArray(reg, CommandWriteRedArray, red, error);
      error := SendColorArray(reg, CommandWriteGreenArray, green, error);
      error := SendColorArray(reg, CommandWriteBlueArray, blue, error);
      AppendAssoc3(old(sent), Frames(CommandWriteRedArray, ColorPackets(red)),
        Frames(CommandWriteGreenArray, ColorPackets(green)), Frames(CommandWriteBlueArray, ColorPackets(blue)));
    }
  }
}
