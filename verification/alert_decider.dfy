/** The alert decision (`EnviarAlertaSeNecessario` and `GerarMensagemAlerta`):
    whether an analysis raises an alert, of which alert type, with which text. */
module AlertDecider {
  import opened Models

  const CriticalPrefix: string := "ALERTA CRÍTICO:"
  const AlertPrefix: string := "ALERTA:"
  const TypeForCritical: string := "critico"
  const TypeForAlert: string := "alerta"

  /** The alert text. The culture-dependent rendering of a number is the
      parameter `fmt`. */
  function AlertMessage(a: Analysis, fmt: real -> string): (m: string)
    ensures a.tier == Critical ==> CriticalPrefix <= m
    ensures a.tier == Alert ==> AlertPrefix <= m && !(CriticalPrefix <= m)
    ensures a.tier == Normal ==> m == ""
  {
    match a.tier
    case Critical =>
      CriticalPrefix + " Máquina " + a.machineId + " em condições críticas! Temperatura: "
      + fmt(a.temperature) + "°C, Fluido: " + fmt(a.coolantFluid) + "%, Rotação: "
      + fmt(a.engineRotation) + " RPM."
    case Alert =>
      var m := AlertPrefix + " Máquina " + a.machineId + " em alerta. Temperatura: "
        + fmt(a.temperature) + "°C, Fluido: " + fmt(a.coolantFluid) + "%, Rotação: "
        + fmt(a.engineRotation) + " RPM.";
      assert m[6] == ':' != CriticalPrefix[6];
      m
    case Normal => ""
  }

  /** Recovers the tier from an alert text by its prefix. */
  function TierOfMessage(m: string): (t: Tier)
  {
    if CriticalPrefix <= m then Critical
    else if AlertPrefix <= m then Alert
    else Normal
  }

  /** The alert type (`tipoAlerta`) passed to the publishing call for an
      alert of tier `t`. */
  function AlertTypeFor(t: Tier): (alertType: string)
    ensures alertType == TypeForCritical <==> t == Critical
    ensures alertType == TypeForCritical || alertType == TypeForAlert
  {
    if t == Critical then TypeForCritical else TypeForAlert
  }

  /** `alertId` stands for the value `GeradorIdUtil.ProximoId()` returns. */
  function Decide(a: Analysis, alertId: int, fmt: real -> string): (d: Option<Dispatch>)
    ensures d.None? <==> a.tier == Normal
    ensures d.Some? ==> d.value.alert.id == alertId && !d.value.alert.checked
    ensures d.Some? ==> (d.value.alertType == TypeForCritical <==> a.tier == Critical)
    ensures d.Some? ==> (d.value.alertType == TypeForAlert <==> a.tier == Alert)
    ensures d.Some? ==> TierOfMessage(d.value.alert.message) == a.tier
  {
    if a.tier == Normal then None
    else
      var m := AlertMessage(a, fmt);
      MessageRoundTrip(a, fmt);
      Some(Dispatch(AlertTypeFor(a.tier), AlertEvent(alertId, m, false)))
  }

  /** The text of an alert identifies its tier, whatever the number format. */
  lemma MessageRoundTrip(a: Analysis, fmt: real -> string)
    ensures TierOfMessage(AlertMessage(a, fmt)) == a.tier
  {
  }
}
