/**
  Compile-time constants of the SHT20/SHT21 driver: the bus address, the
  CRC generator polynomial and the command bytes of the sensor's protocol.
  `uint8_t` is modelled as `bv8` and `uint16_t` as `bv16`.
 */
module Sht2xConstants {

  /** 7-bit I2C address of the sensor. */
  const I2C_ADD: bv8 := 0x40

  /** CRC-8 generator x^8 + x^5 + x^4 + 1, declared as a 16-bit constant. */
  const POLYNOMIAL: bv16 := 0x131

  const TRIGGER_T_MEASUREMENT_HM: bv8 := 0xE3
  const TRIGGER_RH_MEASUREMENT_HM: bv8 := 0xE5
  const TRIGGER_T_MEASUREMENT_NHM: bv8 := 0xF3
  const TRIGGER_RH_MEASUREMENT_NHM: bv8 := 0xF5
  const SOFT_RESET: bv8 := 0xFE

  /** Commands that start a humidity conversion. */
  predicate IsHumidityCommand(command: bv8)
  {
    command == TRIGGER_RH_MEASUREMENT_HM || command == TRIGGER_RH_MEASUREMENT_NHM
  }

  /** Commands that start a temperature conversion. */
  predicate IsTemperatureCommand(command: bv8)
  {
    command == TRIGGER_T_MEASUREMENT_HM || command == TRIGGER_T_MEASUREMENT_NHM
  }

  /** The four commands for which a conversion delay is chosen. */
  predicate IsMeasurementCommand(command: bv8)
  {
    IsHumidityCommand(command) || IsTemperatureCommand(command)
  }

  /**
    Worst-case conversion time in milliseconds: 30 for humidity, 85 for
    temperature. The source assigns the delay in two independent `if`s with
    no `else`, so any other command leaves it unassigned; the precondition
    rules that out.
   */
  function ConversionDelay(command: bv8): (d: nat)
    requires IsMeasurementCommand(command)
    ensures d == 30 <==> IsHumidityCommand(command)
    ensures d == 85 <==> IsTemperatureCommand(command)
  {
    if IsTemperatureCommand(command) then 85 else 30
  }
}
