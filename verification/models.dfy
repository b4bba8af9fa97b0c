/** Value types of the predictive-analysis service: sensor readings, analysis
    records and alerts (the `Modelos` namespace of the service). */
module Models {

  datatype Option<+T> = None | Some(value: T)

  /** Instants are the ticks of a DateTime; two instants are equal exactly
      when their tick counts are. */
  type Time = int

  /** The three sensor kinds (`TipoSensor`). */
  datatype SensorKind = Temperature | CoolantFluid | EngineRotation

  /** One sensor observation (`DadosSensor`). */
  datatype Reading = Reading(
    id: int,
    machineId: string,
    sensorId: string,
    kind: SensorKind,
    value: real,
    timestamp: Time,
    sent: bool)

  /** The severity tier of a composite reading (`Classificacao`). */
  datatype Tier = Normal | Alert | Critical

  /** The classified composite reading that is indexed (`AnalisePreditiva`). */
  datatype Analysis = Analysis(
    id: int,
    machineId: string,
    time: Time,
    temperature: real,
    coolantFluid: real,
    engineRotation: real,
    tier: Tier,
    info: string)

  /** The alert event that is published (`Alerta`). */
  datatype AlertEvent = AlertEvent(id: int, message: string, checked: bool)

  /** An alert together with its alert type (`tipoAlerta`), from which the
      publishing call looks up the exchange and routing key. */
  datatype Dispatch = Dispatch(alertType: string, alert: AlertEvent)

  /** The correlation key of a reading: its machine and its instant. */
  function KeyOf(r: Reading): (k: (string, Time))
  {
    (r.machineId, r.timestamp)
  }
}
