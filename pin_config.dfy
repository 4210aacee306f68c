/** The configuration records of include/pin_config.hpp: the MicroSD pin and
    SPI settings with their presets, and the general spi_config::SPIConfig
    with its two factories. An spi_inst_t handle is only ever compared with
    nullptr, so it is modelled as a Port that is either Null or names an SPI
    instance. Whether the build defines __PICO__ is the parameter onPico. */
module PinConfig {
  import opened Ints

  datatype Port = Null | Port(id: nat)

  /** The SDK's spi1 instance. */
  const SPI1: Port := Port(1)

  /** The highest GPIO number of the RP2040. */
  const MAX_GPIO: int := 29

  // ---------------------------------------------------------------------------
  // Decimal text (std::to_string on unsigned values)

  function Digit(d: nat): (c: char)
    requires d < 10
    ensures '0' <= c <= '9'
  {
    ('0' as int + d) as char
  }

  predicate IsDigits(s: string)
  {
    forall i :: 0 <= i < |s| ==> '0' <= s[i] <= '9'
  }

  /** std::to_string of an unsigned value: its decimal digits, with no
      leading zero unless the value is zero. */
  function Decimal(n: nat): (s: string)
    ensures |s| >= 1 && IsDigits(s)
    ensures s[0] == '0' ==> n == 0
  {
    if n < 10 then [Digit(n)] else Decimal(n / 10) + [Digit(n % 10)]
  }

  /** The value a string of decimal digits denotes. */
  function ParseDecimal(s: string): nat
    requires IsDigits(s)
  {
    if s == [] then 0 else ParseDecimal(s[..|s| - 1]) * 10 + (s[|s| - 1] as int - '0' as int)
  }

  /** Reading the digits back gives the value. */
  lemma {:induction false} DecimalRoundTrip(n: nat)
    ensures ParseDecimal(Decimal(n)) == n
  {
    if n >= 10 {
      var s := Decimal(n);
      assert s[..|s| - 1] == Decimal(n / 10);
      DecimalRoundTrip(n / 10);
    }
  }

  // ---------------------------------------------------------------------------
  // MicroSD

  /** MicroSD::PinConfig. */
  datatype SdPins = SdPins(pinMiso: u32, pinCs: u32, pinSck: u32, pinMosi: u32, useInternalPullup: bool)

  /** The member initialisers of MicroSD::PinConfig. */
  function DefaultSdPins(): SdPins
  {
    SdPins(11, 13, 10, 12, true)
  }

  /** MicroSD::PinConfig::is_valid: every pin is a GPIO of the chip. */
  predicate SdPinsValid(p: SdPins)
  {
    p.pinMiso <= MAX_GPIO && p.pinCs <= MAX_GPIO && p.pinSck <= MAX_GPIO && p.pinMosi <= MAX_GPIO
  }

  /** MicroSD::PinConfig::get_description. */
  function SdPinsDescription(p: SdPins): string
  {
    "MISO:" + Decimal(p.pinMiso) + " CS:" + Decimal(p.pinCs) + " SCK:" + Decimal(p.pinSck) + " MOSI:" + Decimal(p.pinMosi)
  }

  /** MicroSD::SPIConfig. */
  datatype SdSpiConfig = SdSpiConfig(spiPort: Port, clkSlow: u32, clkFast: u32, pins: SdPins)

  /** The constructor: 400 kHz and 40 MHz, the default pins, and the port
      set to spi1 only in a build for the Pico. */
  function NewSdSpiConfig(onPico: bool): SdSpiConfig
  {
    SdSpiConfig(if onPico then SPI1 else Null, 400 * 1000, 40 * 1000 * 1000, DefaultSdPins())
  }

  /** MicroSD::SPIConfig::is_valid. */
  predicate SdSpiValid(c: SdSpiConfig)
  {
    c.spiPort != Null && SdPinsValid(c.pins)
  }

  /** MicroSD::SPIConfig::get_description. */
  function SdSpiDescription(c: SdSpiConfig): string
  {
    var spiName := "SPI" + (if c.spiPort != Null then "1" else "?");
    spiName + " Slow:" + Decimal(c.clkSlow / 1000) + "KHz" + " Fast:" + Decimal(c.clkFast / 1000000) + "MHz"
      + " Pins:" + SdPinsDescription(c.pins)
  }

  /** MicroSD::Config::DEFAULT. */
  function SdDefault(onPico: bool): SdSpiConfig
  {
    NewSdSpiConfig(onPico)
  }

  /** MicroSD::Config::HIGH_SPEED: the fast clock raised to 50 MHz. */
  function SdHighSpeed(onPico: bool): SdSpiConfig
  {
    NewSdSpiConfig(onPico).(clkFast := 50 * 1000 * 1000)
  }

  /** MicroSD::Config::COMPATIBLE: both clocks halved, to 200 kHz and 20 MHz. */
  function SdCompatible(onPico: bool): SdSpiConfig
  {
    NewSdSpiConfig(onPico).(clkSlow := 200 * 1000, clkFast := 20 * 1000 * 1000)
  }

  /** The default pins are GPIO 11, 13, 10 and 12, all valid. Every preset
      is valid exactly when it is built for the Pico, where the port is
      spi1; HIGH_SPEED differs from DEFAULT in the fast clock alone and
      COMPATIBLE in the two clocks alone. */
  lemma SdPresets(onPico: bool)
    ensures SdPinsValid(DefaultSdPins())
    ensures SdSpiValid(SdDefault(onPico)) <==> onPico
    ensures SdSpiValid(SdHighSpeed(onPico)) <==> onPico
    ensures SdSpiValid(SdCompatible(onPico)) <==> onPico
    ensures SdHighSpeed(onPico) == SdDefault(onPico).(clkFast := 50000000)
    ensures SdCompatible(onPico) == SdDefault(onPico).(clkSlow := 200000, clkFast := 20000000)
    ensures SdDefault(onPico).clkSlow == 400000 && SdDefault(onPico).clkFast == 40000000
  {
  }

  /** The default pins are described as MISO:11 CS:13 SCK:10 MOSI:12. */
  lemma SdDefaultPinsDescription()
    ensures SdPinsDescription(DefaultSdPins()) == "MISO:11 CS:13 SCK:10 MOSI:12"
  {
    TwoDigits(11);
    TwoDigits(13);
    TwoDigits(10);
    TwoDigits(12);
  }

  lemma TwoDigits(n: nat)
    requires 10 <= n < 100
    ensures Decimal(n) == [Digit(n / 10), Digit(n % 10)]
  {
  }

  // ---------------------------------------------------------------------------
  // spi_config::SPIConfig

  datatype SpiConfig = SpiConfig(
    spiInst: Port, clkSlow: u32, clkFast: u32,
    pinMiso: u32, pinCs: u32, pinSck: u32, pinMosi: u32, pullup: bool)

  /** The constructor: no instance, 400 kHz and 40 MHz, every pin 0, pull-up
      on. */
  function NewSpiConfig(): SpiConfig
  {
    SpiConfig(Null, 400000, 40000000, 0, 0, 0, 0, true)
  }

  /** spi_config::SPIConfig::is_valid. */
  predicate SpiConfigValid(c: SpiConfig)
  {
    c.spiInst != Null && c.pinMiso <= MAX_GPIO && c.pinCs <= MAX_GPIO && c.pinSck <= MAX_GPIO && c.pinMosi <= MAX_GPIO
  }

  const INVALID_DESCRIPTION: string := "Invalid SPI Config"

  /** spi_config::SPIConfig::get_description. */
  function SpiConfigDescription(c: SpiConfig): string
  {
    if c.spiInst == Null then INVALID_DESCRIPTION
    else
      var spiName := "SPI" + (if c.spiInst != Null then "1" else "?");
      spiName + " Slow:" + Decimal(c.clkSlow / 1000) + "KHz" + " Fast:" + Decimal(c.clkFast / 1000000) + "MHz"
        + " Pins:" + Decimal(c.pinMiso) + "," + Decimal(c.pinCs) + "," + Decimal(c.pinSck) + "," + Decimal(c.pinMosi)
  }

  /** get_default_config. */
  function GetDefaultConfig(): SpiConfig
  {
    NewSpiConfig().(spiInst := Null, clkSlow := 400000, clkFast := 40000000,
                    pinMiso := 11, pinCs := 13, pinSck := 10, pinMosi := 12, pullup := true)
  }

  /** get_compat_config. */
  function GetCompatConfig(): SpiConfig
  {
    NewSpiConfig().(spiInst := Null, clkSlow := 200000, clkFast := 20000000,
                    pinMiso := 11, pinCs := 13, pinSck := 10, pinMosi := 12, pullup := true)
  }

  /** The description reads "Invalid SPI Config" exactly when there is no
      instance: every other description starts with "SPI1". */
  lemma DescriptionInvalidIffNull(c: SpiConfig)
    ensures SpiConfigDescription(c) == INVALID_DESCRIPTION <==> c.spiInst == Null
    ensures c.spiInst != Null ==> SpiConfigDescription(c)[..4] == "SPI1"
  {
    if c.spiInst != Null {
      var d := SpiConfigDescription(c);
      assert d[..4] == "SPI1";
      assert d[3] != INVALID_DESCRIPTION[3];
    }
  }

  /** Neither factory sets an instance, so neither configuration is valid
      although all its pins are; both use the MicroSD pins, and the
      compatible one halves both clocks. The constructor's configuration is
      invalid for the same reason. */
  lemma FactoriesInvalid()
    ensures !SpiConfigValid(NewSpiConfig()) && !SpiConfigValid(GetDefaultConfig()) && !SpiConfigValid(GetCompatConfig())
    ensures SpiConfigValid(GetDefaultConfig().(spiInst := SPI1)) && SpiConfigValid(GetCompatConfig().(spiInst := SPI1))
    ensures SpiConfigDescription(GetDefaultConfig()) == INVALID_DESCRIPTION
    ensures SpiConfigDescription(GetCompatConfig()) == INVALID_DESCRIPTION
    ensures GetCompatConfig() == GetDefaultConfig().(clkSlow := 200000, clkFast := 20000000)
    ensures var d := GetDefaultConfig(); var p := DefaultSdPins();
      d.pinMiso == p.pinMiso && d.pinCs == p.pinCs && d.pinSck == p.pinSck && d.pinMosi == p.pinMosi
  {
  }
}
