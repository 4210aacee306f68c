/** The transport layer of the driver (src/ili9488_hal.c): chip-select and
    data/command framing of SPI writes, the reset pulse, the backlight level and
    the single-owner DMA path.

    The pins and the SPI peripheral are observed through a log of events in
    program order. Platform calls that have no effect visible on the display's
    pins (spi_init, gpio_set_function, the PWM slice set-up, interrupt
    acknowledgement) are not logged. */
module Hal {
  import opened Ints

  /** One observable action on the display interface. */
  datatype Event =
    | Cs(level: bool)                    // gpio_put on chip-select; false = selected
    | Dc(level: bool)                    // gpio_put on data/command; true = data
    | Rst(level: bool)                   // gpio_put on reset; false = in reset
    | Spi(isData: bool, bytes: seq<u8>)  // one SPI transfer, tagged with the DC level it was clocked under
    | Sleep(ms: nat)                     // sleep_ms

  /** A byte as the controller receives it: DC low means command, high means data. */
  datatype Word = Command(b: u8) | Data(b: u8)

  /** Largest transfer write_data_buffer hands to the SPI peripheral at once. */
  const ChunkSize: nat := 4096

  /** The hardware configuration saved by hal_init (include/ili9488_hal.h:19-30);
      the spi_inst_t handle is not modelled. */
  datatype HwConfig = HwConfig(
    spiSpeedHz: u32,
    pinDin: u8, pinSck: u8, pinCs: u8, pinDc: u8, pinReset: u8, pinBl: u8)

  // ---------------------------------------------------------------------------
  // The controller's view of a log

  function Tagged(isData: bool, bytes: seq<u8>): (w: seq<Word>)
    ensures |w| == |bytes|
    ensures forall i :: 0 <= i < |bytes| ==> w[i] == (if isData then Data(bytes[i]) else Command(bytes[i]))
  {
    if bytes == [] then [] else [if isData then Data(bytes[0]) else Command(bytes[0])] + Tagged(isData, bytes[1..])
  }

  function DataWords(bytes: seq<u8>): seq<Word> { Tagged(true, bytes) }

  function WordsOf(e: Event): seq<Word> { if e.Spi? then Tagged(e.isData, e.bytes) else [] }

  /** The tagged byte stream the controller receives, pin toggles and delays dropped. */
  function Wire(log: seq<Event>): seq<Word>
  {
    if log == [] then [] else WordsOf(log[0]) + Wire(log[1..])
  }

  lemma {:induction false} TaggedAppend(isData: bool, a: seq<u8>, b: seq<u8>)
    ensures Tagged(isData, a + b) == Tagged(isData, a) + Tagged(isData, b)
  {
    if a == [] {
      assert a + b == b;
    } else {
      assert (a + b)[1..] == a[1..] + b;
      TaggedAppend(isData, a[1..], b);
    }
  }

  lemma AppendAssoc<T>(a: seq<T>, b: seq<T>, c: seq<T>)
    ensures (a + b) + c == a + (b + c)
  {
  }

  /** Bookkeeping of a loop that sends a stream in pieces: if what is left
      to send starts with the piece just sent, the invariant carries over. */
  lemma AppendStep<T>(before: seq<T>, piece: seq<T>, rest: seq<T>, left: seq<T>, target: seq<T>)
    requires before + left == target && left == piece + rest
    ensures (before + piece) + rest == target
  {
  }

  lemma {:induction false} WireAppend(a: seq<Event>, b: seq<Event>)
    ensures Wire(a + b) == Wire(a) + Wire(b)
  {
    if a == [] {
      assert a + b == b;
    } else {
      assert (a + b)[1..] == a[1..] + b;
      WireAppend(a[1..], b);
    }
  }

  // ---------------------------------------------------------------------------
  // Event sequences of the framing primitives

  /** write_cmd: select, command mode, one byte, deselect. */
  function CmdEvents(c: u8): seq<Event> { [Cs(false), Dc(false), Spi(false, [c]), Cs(true)] }

  /** write_data: select, data mode, one byte, deselect. */
  function DataEvents(d: u8): seq<Event> { [Cs(false), Dc(true), Spi(true, [d]), Cs(true)] }

  /** The transfers of write_data_buffer's chunking loop. */
  function Chunks(data: seq<u8>): seq<Event>
    decreases |data|
  {
    if |data| == 0 then []
    else if |data| > ChunkSize then [Spi(true, data[..ChunkSize])] + Chunks(data[ChunkSize..])
    else [Spi(true, data)]
  }

  /** write_data_buffer: nothing for an empty buffer, otherwise all chunks under one selection. */
  function BufferEvents(data: seq<u8>): seq<Event>
  {
    if data == [] then [] else [Cs(false), Dc(true)] + Chunks(data) + [Cs(true)]
  }

  /** hal_reset: RESET held high 10 ms, low 10 ms, high again, then 150 ms recovery. */
  function ResetEvents(): seq<Event>
  {
    [Rst(true), Sleep(10), Rst(false), Sleep(10), Rst(true), Sleep(150)]
  }

  /** The pin writes of a successful hal_init: CS, DC and RESET driven high. */
  function HalInitEvents(): seq<Event> { [Cs(true), Dc(true), Rst(true)] }

  /** Concatenated payload of a sequence of transfers. */
  function Payload(es: seq<Event>): seq<u8>
  {
    if es == [] then [] else (if es[0].Spi? then es[0].bytes else []) + Payload(es[1..])
  }

  // ---------------------------------------------------------------------------
  // Properties of the framing

  lemma CmdWire(c: u8)
    ensures Wire(CmdEvents(c)) == [Command(c)]
  {
    assert CmdEvents(c) == [Cs(false), Dc(false)] + [Spi(false, [c]), Cs(true)];
    assert CmdEvents(c)[1..][1..] == [Spi(false, [c]), Cs(true)];
    assert Wire([Spi(false, [c]), Cs(true)]) == [Command(c)] + Wire([Cs(true)]);
  }

  lemma DataWire(d: u8)
    ensures Wire(DataEvents(d)) == [Data(d)]
  {
    assert DataEvents(d)[1..][1..] == [Spi(true, [d]), Cs(true)];
    assert Wire([Spi(true, [d]), Cs(true)]) == [Data(d)] + Wire([Cs(true)]);
  }

  lemma WireCmdSnoc(log: seq<Event>, c: u8)
    ensures Wire(log + CmdEvents(c)) == Wire(log) + [Command(c)]
  {
    WireAppend(log, CmdEvents(c));
    CmdWire(c);
  }

  lemma WireDataSnoc(log: seq<Event>, d: u8)
    ensures Wire(log + DataEvents(d)) == Wire(log) + [Data(d)]
  {
    WireAppend(log, DataEvents(d));
    DataWire(d);
  }

  lemma WireSleepSnoc(log: seq<Event>, ms: nat)
    ensures Wire(log + [Sleep(ms)]) == Wire(log)
  {
    WireAppend(log, [Sleep(ms)]);
    assert Wire([Sleep(ms)]) == WordsOf(Sleep(ms)) + Wire([]);
  }

  /** Every chunk is a non-empty data transfer of at most 4096 bytes, and the
      chunks put back together are exactly the buffer. */
  lemma {:induction false} ChunksSplitBuffer(data: seq<u8>)
    ensures forall e :: e in Chunks(data) ==> e.Spi? && e.isData && 0 < |e.bytes| <= ChunkSize
    ensures Payload(Chunks(data)) == data
    ensures Wire(Chunks(data)) == DataWords(data)
    decreases |data|
  {
    if |data| == 0 {
    } else if |data| > ChunkSize {
      var rest := Chunks(data[ChunkSize..]);
      ChunksSplitBuffer(data[ChunkSize..]);
      assert Chunks(data) == [Spi(true, data[..ChunkSize])] + rest;
      assert ([Spi(true, data[..ChunkSize])] + rest)[1..] == rest;
      assert data == data[..ChunkSize] + data[ChunkSize..];
      TaggedAppend(true, data[..ChunkSize], data[ChunkSize..]);
    } else {
      assert Chunks(data) == [Spi(true, data)];
      assert Chunks(data)[1..] == [];
      assert data + [] == data;
    }
  }

  /** The controller sees a buffer write as exactly the buffer's bytes in data mode. */
  lemma BufferWire(data: seq<u8>)
    ensures Wire(BufferEvents(data)) == DataWords(data)
  {
    if data != [] {
      ChunksSplitBuffer(data);
      WireAppend([Cs(false), Dc(true)], Chunks(data));
      WireAppend([Cs(false), Dc(true)] + Chunks(data), [Cs(true)]);
      assert Wire([Cs(false), Dc(true)]) == [];
      assert Wire([Cs(true)]) == [];
    }
  }

  /** The guard `hw_config.pin_bl != -1` compares a uint8_t with -1 after
      integer promotion, so it holds for every pin. */
  predicate BacklightPinSet(pin: u8) { pin as int != -1 }

  lemma BacklightGuardAlwaysHolds(pin: u8)
    ensures BacklightPinSet(pin)
  {
  }

  // ---------------------------------------------------------------------------
  // The transport object

  /** The file-scope state of src/ili9488_hal.c together with the pin levels. */
  class Bus {
    var config: HwConfig
    var cs: bool
    var dc: bool
    var reset: bool
    var dmaChannel: int        // -1 until a channel is claimed
    var dmaBusy: bool          // set by a started DMA transfer, cleared by its completion handler
    var dmaConfigured: bool    // channel configured and completion handler installed
    var brightness: u8         // PWM level of the backlight channel
    var log: seq<Event>

    /** A transfer can only be in flight on a claimed channel, and a claimed
        channel is configured. */
    ghost predicate Valid()
      reads this`dmaBusy, this`dmaChannel, this`dmaConfigured
    {
      (dmaBusy ==> dmaChannel != -1) && (dmaConfigured <==> dmaChannel != -1)
    }

    /** The zero-initialised statics before hal_init has run. */
    constructor ()
      ensures Valid()
      ensures config == HwConfig(0, 0, 0, 0, 0, 0, 0)
      ensures !cs && !dc && !reset && brightness == 0
      ensures dmaChannel == -1 && !dmaBusy && !dmaConfigured && log == []
    {
      config := HwConfig(0, 0, 0, 0, 0, 0, 0);
      cs, dc, reset := false, false, false;
      dmaChannel, dmaBusy, dmaConfigured := -1, false, false;
      brightness := 0;
      log := [];
    }

    /** hal_init: a missing configuration is rejected; otherwise it is saved,
        CS, DC and RESET go high and the backlight PWM starts at full level. */
    method Init(cfg: Option<HwConfig>) returns (ok: bool)
      modifies this`config, this`cs, this`dc, this`reset, this`brightness, this`log
      ensures ok == cfg.Some?
      ensures !ok ==> config == old(config) && cs == old(cs) && dc == old(dc) && reset == old(reset)
                      && brightness == old(brightness) && log == old(log)
      ensures ok ==> config == cfg.value && cs && dc && reset && brightness == 255
                     && log == old(log) + HalInitEvents()
    {
      if cfg.None? {
        return false;
      }
      config := cfg.value;
      PutCs(true);
      PutDc(true);
      reset := true;
      log := log + [Rst(true)];
      if BacklightPinSet(config.pinBl) {
        brightness := 255;
      }
      return true;
    }

    /** hal_cs. */
    method PutCs(level: bool)
      modifies this`cs, this`log
      ensures cs == level && log == old(log) + [Cs(level)]
    {
      cs := level;
      log := log + [Cs(level)];
    }

    /** hal_dc. */
    method PutDc(level: bool)
      modifies this`dc, this`log
      ensures dc == level && log == old(log) + [Dc(level)]
    {
      dc := level;
      log := log + [Dc(level)];
    }

    /** spi_write_blocking: the bytes are clocked out under the current DC level. */
    method SpiWrite(bytes: seq<u8>)
      modifies this`log
      ensures log == old(log) + [Spi(dc, bytes)]
    {
      log := log + [Spi(dc, bytes)];
    }

    /** hal_reset. */
    method Reset()
      modifies this`reset, this`log
      ensures reset && log == old(log) + ResetEvents()
    {
      reset := true;
      log := log + [Rst(true), Sleep(10)];
      reset := false;
      log := log + [Rst(false), Sleep(10)];
      reset := true;
      log := log + [Rst(true), Sleep(150)];
    }

    /** hal_delay_ms. */
    method DelayMs(ms: nat)
      modifies this`log
      ensures log == old(log) + [Sleep(ms)]
    {
      log := log + [Sleep(ms)];
    }

    /** hal_write_cmd. The DMA state is not consulted. */
    method WriteCmd(c: u8)
      modifies this`cs, this`dc, this`log
      ensures cs && !dc && log == old(log) + CmdEvents(c)
    {
      PutCs(false);
      PutDc(false);
      SpiWrite([c]);
      PutCs(true);
    }

    /** hal_write_data. The DMA state is not consulted. */
    method WriteData(d: u8)
      modifies this`cs, this`dc, this`log
      ensures cs && dc && log == old(log) + DataEvents(d)
    {
      PutCs(false);
      PutDc(true);
      SpiWrite([d]);
      PutCs(true);
    }

    /** hal_write_data_buffer: an empty buffer (or a null buffer) changes
        nothing; otherwise one selection in data mode carries every chunk. */
    method WriteDataBuffer(data: seq<u8>)
      modifies this`cs, this`dc, this`log
      ensures log == old(log) + BufferEvents(data)
      ensures data == [] ==> cs == old(cs) && dc == old(dc)
      ensures data != [] ==> cs && dc
    {
      if |data| == 0 {
        return;
      }
      PutCs(false);
      PutDc(true);
      ghost var framed := log;
      var remaining := |data|;
      var ptr := 0;
      while remaining > 0
        invariant 0 <= ptr <= |data| && remaining == |data| - ptr
        invariant dc
        invariant log + Chunks(data[ptr..]) == framed + Chunks(data)
      {
        var chunkSize := if remaining > ChunkSize then ChunkSize else remaining;
        assert data[ptr..][..chunkSize] == data[ptr..ptr + chunkSize];
        assert data[ptr..][chunkSize..] == data[ptr + chunkSize..];
        if remaining <= ChunkSize {
          assert data[ptr..ptr + chunkSize] == data[ptr..];
          assert Chunks(data[ptr + chunkSize..]) == [];
        }
        assert Chunks(data[ptr..]) == [Spi(true, data[ptr..ptr + chunkSize])] + Chunks(data[ptr + chunkSize..]);
        SpiWrite(data[ptr..ptr + chunkSize]);
        assert log + Chunks(data[ptr + chunkSize..]) == framed + Chunks(data);
        ptr := ptr + chunkSize;
        remaining := remaining - chunkSize;
      }
      assert data[ptr..] == [];
      assert log == framed + Chunks(data);
      PutCs(true);
      assert log == old(log) + ([Cs(false), Dc(true)] + Chunks(data) + [Cs(true)]);
    }

    /** hal_set_backlight_brightness (the pin guard never rejects). */
    method SetBacklightBrightness(level: u8)
      modifies this`brightness
      ensures brightness == level
    {
      if !BacklightPinSet(config.pinBl) {
        return;
      }
      brightness := level;
    }

    /** hal_set_backlight: on is full level, off is zero. */
    method SetBacklight(on: bool)
      modifies this`brightness
      ensures brightness == if on then 255 else 0
    {
      if !BacklightPinSet(config.pinBl) {
        return;
      }
      if on {
        SetBacklightBrightness(255);
      } else {
        SetBacklightBrightness(0);
      }
    }

    /** hal_write_data_dma. `claimed` is what dma_claim_unused_channel returns
        if a channel has to be claimed. The transfer's bytes are logged when it
        starts; the completion handler releases CS later. */
    method WriteDataDma(data: seq<u8>, claimed: int) returns (ok: bool)
      requires Valid()
      modifies this`dmaChannel, this`dmaConfigured, this`dmaBusy, this`cs, this`dc, this`log
      ensures Valid()
      ensures ok == (data != [] && (old(dmaChannel) != -1 || claimed != -1) && !old(dmaBusy))
      ensures dmaChannel == if data != [] && old(dmaChannel) == -1 then claimed else old(dmaChannel)
      ensures old(dmaBusy) ==> dmaBusy
      ensures ok ==> dmaBusy && dc && !cs && log == old(log) + [Dc(true), Cs(false), Spi(true, data)]
      ensures !ok ==> dmaBusy == old(dmaBusy) && cs == old(cs) && dc == old(dc) && log == old(log)
    {
      if |data| == 0 {
        return false;
      }
      if dmaChannel == -1 {
        dmaChannel := claimed;
        if dmaChannel == -1 {
          return false;
        }
        dmaConfigured := true;
      }
      if dmaBusy {
        return false;
      }
      dmaBusy := true;
      PutDc(true);
      PutCs(false);
      SpiWrite(data);
      return true;
    }

    /** dma_complete_handler, called explicitly where the interrupt fires. It
        is the only method that clears dmaBusy. */
    method DmaCompleteHandler()
      modifies this`cs, this`dmaBusy, this`log
      ensures cs && !dmaBusy && log == old(log) + [Cs(true)]
    {
      PutCs(true);
      dmaBusy := false;
    }

    /** hal_is_dma_busy. */
    method IsDmaBusy() returns (busy: bool)
      ensures busy == dmaBusy
    {
      busy := dmaBusy;
    }

    /** hal_wait_dma_idle. The spin can only end when the completion
        interrupt has cleared the flag; here the interrupt fires on the first
        turn of the spin. */
    method WaitDmaIdle()
      modifies this`cs, this`dmaBusy, this`log
      ensures !dmaBusy
      ensures log == old(log) + (if old(dmaBusy) then [Cs(true)] else [])
      ensures old(dmaBusy) ==> cs
    {
      while dmaBusy
        invariant log == old(log) + (if old(dmaBusy) && !dmaBusy then [Cs(true)] else [])
        invariant old(dmaBusy) && !dmaBusy ==> cs
        invariant !old(dmaBusy) ==> !dmaBusy
        decreases if dmaBusy then 1 else 0
      {
        DmaCompleteHandler();
      }
    }
  }

  /** The DMA hand-off as a sequence: start succeeds, a second start while in
      flight fails, the flag reads busy, the completion handler runs, the flag
      reads idle, and a new start succeeds. */
  method DmaHandshake(data: seq<u8>, claimed: int)
    returns (first: bool, second: bool, busyBetween: bool, busyAfter: bool, third: bool)
    requires data != [] && claimed != -1
    ensures first && !second && busyBetween && !busyAfter && third
  {
    var bus := new Bus();
    first := bus.WriteDataDma(data, claimed);
    second := bus.WriteDataDma(data, claimed);
    busyBetween := bus.IsDmaBusy();
    bus.DmaCompleteHandler();
    busyAfter := bus.IsDmaBusy();
    third := bus.WriteDataDma(data, claimed);
  }
}
