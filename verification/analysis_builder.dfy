/** Assembly of the analysis record from a completed window
    (`CriarAnalisePreditiva`). */
module AnalysisBuilder {
  import opened Models
  import opened Classifier

  /** `v` is what `FirstOrDefault(s => s.TipoSensor == kind)?.Valor ?? 0`
      yields on `w`: the value of the earliest reading of that kind, or 0 when
      `w` holds none. */
  ghost predicate IsFirstValue(w: seq<Reading>, kind: SensorKind, v: real)
  {
    || (exists i :: 0 <= i < |w| && w[i].kind == kind && w[i].value == v
                    && forall j :: 0 <= j < i ==> w[j].kind != kind)
    || ((forall i :: 0 <= i < |w| ==> w[i].kind != kind) && v == 0.0)
  }

  function FirstValue(w: seq<Reading>, kind: SensorKind): (v: real)
    ensures IsFirstValue(w, kind, v)
  {
    if w == [] then 0.0
    else if w[0].kind == kind then w[0].value
    else
      FirstValue(w[1..], kind)
  }

  /** The fixed `Info` text of each tier. */
  function InfoFor(t: Tier): (info: string)
    ensures info == "Dados críticos" <==> t == Critical
    ensures info == "Dados em alerta" <==> t == Alert
    ensures info == "Dados normais" <==> t == Normal
  {
    match t
    case Critical => "Dados críticos"
    case Alert => "Dados em alerta"
    case Normal => "Dados normais"
  }

  /** `id` stands for the value `GeradorIdUtil.ProximoId()` returns. The source
      reads `sensores.First()`, which fails on an empty list. */
  function Build(w: seq<Reading>, id: int): (a: Analysis)
    requires |w| > 0
    ensures a.id == id && a.machineId == w[0].machineId && a.time == w[0].timestamp
    ensures IsFirstValue(w, Temperature, a.temperature)
    ensures IsFirstValue(w, CoolantFluid, a.coolantFluid)
    ensures IsFirstValue(w, EngineRotation, a.engineRotation)
    ensures a.tier == Classify(a.temperature, a.coolantFluid, a.engineRotation)
    ensures a.info == InfoFor(a.tier)
  {
    var temperature := FirstValue(w, Temperature);
    var fluid := FirstValue(w, CoolantFluid);
    var rotation := FirstValue(w, EngineRotation);
    var tier := Classify(temperature, fluid, rotation);
    Analysis(id, w[0].machineId, w[0].timestamp, temperature, fluid, rotation, tier, InfoFor(tier))
  }

  /** The three info texts tell the tiers apart. */
  lemma InfoIdentifiesTier(t1: Tier, t2: Tier)
    requires InfoFor(t1) == InfoFor(t2)
    ensures t1 == t2
  {
  }

  /** A reading of `kind` at index `i` that is the only one of its kind
      determines the extracted value. */
  lemma FirstValueOfUnique(w: seq<Reading>, kind: SensorKind, i: nat)
    requires i < |w| && w[i].kind == kind
    requires forall j :: 0 <= j < |w| && j != i ==> w[j].kind != kind
    ensures FirstValue(w, kind) == w[i].value
  {
  }
}
