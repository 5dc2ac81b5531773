/** The UC8159 command set: each command is sent as its one-byte opcode
    (src/display/command.rs). */
module Commands {
  import opened Wrappers

  datatype Command =
    | PanelSetting
    | PowerSetting
    | PowerOff
    | PowerOffSequenceSetting
    | PowerOn
    | BoosterSoftStart
    | DeepSleep
    | DataStartTransmission1
    | DataStop
    | DisplayRefresh
    | ImageProcess
    | PllControl
    | TemperatureSensor
    | TemperatureCalibration
    | TemperatureSensorWrite
    | TemperatureSensorRead
    | VcomAndDataIntervalSetting
    | LowPowerDetection
    | TconSetting
    | TconResolution
    | SpiFlashControl
    | Revision
    | GetStatus
    | AutoMeasurementVcom
    | ReadVcomValue
    | VcmDcSetting
    | FlashMode
    | TsSet

  /** `address`: the opcode byte, the enum's discriminant. */
  function Address(c: Command): (b: bv8)
  {
    match c
    case PanelSetting => 0x00
    case PowerSetting => 0x01
    case PowerOff => 0x02
    case PowerOffSequenceSetting => 0x03
    case PowerOn => 0x04
    case BoosterSoftStart => 0x06
    case DeepSleep => 0x07
    case DataStartTransmission1 => 0x10
    case DataStop => 0x11
    case DisplayRefresh => 0x12
    case ImageProcess => 0x13
    case PllControl => 0x30
    case TemperatureSensor => 0x40
    case TemperatureCalibration => 0x41
    case TemperatureSensorWrite => 0x42
    case TemperatureSensorRead => 0x43
    case VcomAndDataIntervalSetting => 0x50
    case LowPowerDetection => 0x51
    case TconSetting => 0x60
    case TconResolution => 0x61
    case SpiFlashControl => 0x65
    case Revision => 0x70
    case GetStatus => 0x71
    case AutoMeasurementVcom => 0x80
    case ReadVcomValue => 0x81
    case VcmDcSetting => 0x82
    case FlashMode => 0xE3
    case TsSet => 0xE5
  }

  /** The controller's view of an opcode byte: the command it names, if any.
      This is the independent partner of `Address`. */
  function FromAddress(b: bv8): (r: Option<Command>)
    ensures r.Some? ==> Address(r.value) == b
  {
    match b
    case 0x00 => Some(PanelSetting)
    case 0x01 => Some(PowerSetting)
    case 0x02 => Some(PowerOff)
    case 0x03 => Some(PowerOffSequenceSetting)
    case 0x04 => Some(PowerOn)
    case 0x06 => Some(BoosterSoftStart)
    case 0x07 => Some(DeepSleep)
    case 0x10 => Some(DataStartTransmission1)
    case 0x11 => Some(DataStop)
    case 0x12 => Some(DisplayRefresh)
    case 0x13 => Some(ImageProcess)
    case 0x30 => Some(PllControl)
    case 0x40 => Some(TemperatureSensor)
    case 0x41 => Some(TemperatureCalibration)
    case 0x42 => Some(TemperatureSensorWrite)
    case 0x43 => Some(TemperatureSensorRead)
    case 0x50 => Some(VcomAndDataIntervalSetting)
    case 0x51 => Some(LowPowerDetection)
    case 0x60 => Some(TconSetting)
    case 0x61 => Some(TconResolution)
    case 0x65 => Some(SpiFlashControl)
    case 0x70 => Some(Revision)
    case 0x71 => Some(GetStatus)
    case 0x80 => Some(AutoMeasurementVcom)
    case 0x81 => Some(ReadVcomValue)
    case 0x82 => Some(VcmDcSetting)
    case 0xE3 => Some(FlashMode)
    case 0xE5 => Some(TsSet)
    case _ => None
  }

  /** Every opcode decodes back to the command that produced it. */
  lemma AddressRoundTrip(c: Command)
    ensures FromAddress(Address(c)) == Some(c)
  {
    match c
    case PanelSetting =>
    case PowerSetting =>
    case PowerOff =>
    case PowerOffSequenceSetting =>
    case PowerOn =>
    case BoosterSoftStart =>
    case DeepSleep =>
    case DataStartTransmission1 =>
    case DataStop =>
    case DisplayRefresh =>
    case ImageProcess =>
    case PllControl =>
    case TemperatureSensor =>
    case TemperatureCalibration =>
    case TemperatureSensorWrite =>
    case TemperatureSensorRead =>
    case VcomAndDataIntervalSetting =>
    case LowPowerDetection =>
    case TconSetting =>
    case TconResolution =>
    case SpiFlashControl =>
    case Revision =>
    case GetStatus =>
    case AutoMeasurementVcom =>
    case ReadVcomValue =>
    case VcmDcSetting =>
    case FlashMode =>
    case TsSet =>
  }

  /** A byte that decodes to nothing is the opcode of no command. */
  lemma FromAddressComplete(b: bv8)
    ensures FromAddress(b).None? <==> forall c: Command :: Address(c) != b
  {
    if FromAddress(b).None? {
      forall c: Command
        ensures Address(c) != b
      {
        AddressRoundTrip(c);
      }
    }
  }

  /** No two commands share an opcode, so the byte on the wire identifies
      the command. */
  lemma AddressInjective(a: Command, b: Command)
    ensures Address(a) == Address(b) <==> a == b
  {
    AddressRoundTrip(a);
    AddressRoundTrip(b);
  }

  /** The parameter `DeepSleep` needs before the controller obeys it. */
  const DeepSleepCheckCode: bv8 := 0xA5
}
