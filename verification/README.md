# Sentinel predictive analysis: correlation buffer, classifier and alert decision

This project models the core of the Sentinel predictive-analysis service. The
service receives single sensor readings for industrial machines. There are
three kinds of reading: temperature, coolant-fluid level and engine rotation.
It gathers the readings of one machine and one instant in a buffer. When the
buffer holds a complete set, the service builds an analysis record and
classifies it into a tier (Normal, Alert or Critical). It then indexes the
record and, for a non-normal tier, publishes an alert of type "critico" or
"alerta".

Modules:

- `Models` (`models.dfy`): the value types. `Reading` is `DadosSensor`,
  `SensorKind` is `TipoSensor`, `Analysis` is `AnalisePreditiva`, `Tier` is
  `Classificacao` and `AlertEvent` is `Alerta`. Sensor values are `real`,
  because the service only compares and copies them. Instants are DateTime
  ticks (`int`).
- `Classifier` (`classifier.dfy`): the three-band threshold rule with strict
  limits.
- `AnalysisBuilder` (`analysis_builder.dfy`): builds the record from a window.
  Each value is taken from the first reading of its kind, or is 0 when there
  is none.
- `AlertDecider` (`alert_decider.dfy`): whether an alert is sent, with which
  alert type, and with which text.
- `Correlation` (`correlation.dfy`): the buffer as a value, a
  `map<(machine, instant), seq<Reading>>`. It holds the transition `Step` for
  one reading, `Run` for a sequence of readings, and the buffer invariant and
  its lemmas.
- `Service` (`service.dfy`): the class `SensorService`. Its field `buffer`
  holds that map. Its method `Ingest` updates the field in place and is
  proved to make exactly the `Step` transition. `HandleMessage` is the message
  handler after decoding. `Process` is the processing of a completed window.

Two consequences of the code that the model keeps:

- Window completion. A window completes only when its list has exactly three
  entries covering three distinct kinds
  (Sentinel.Analise.Preditiva/Services/RabbitMQService.cs:66). Every reading
  is appended, so two readings of one kind among the first three stall the
  window for good: `DuplicateKindStallsForever` and `StallIsPermanent` prove
  this. The record takes the first reading of each kind (lines 82-84).
- Indexing failure. `IndexarDadosAsync` throws on an invalid response
  (Sentinel.Analise.Preditiva/Services/ElasticsearchService.cs:15-18). The
  exception ends `ProcessarDados` before line 77, so no alert is sent. In the
  model, when `indexed` is false, no alert is produced.

Injected parameters: the ids that `GeradorIdUtil.ProximoId()` would return
(`analysisId`, `alertId`), the outcome of the indexing call (`indexed`), and
the culture-dependent rendering of a number inside the alert text (`fmt`).
`GeradorIdUtil` and `Alerta` are not part of this model. The alert's fields
are those its initializer sets.

## Model

| member | source | states |
|---|---|---|
| Classifier.Classify | Sentinel.Analise.Preditiva/Services/RabbitMQService.cs:142-147 | The tier is Critical exactly when temperature > 80, fluid < 20 or rotation < 1000 (strict limits), and Normal exactly when temperature <= 70, fluid >= 30 and rotation >= 1500. |
| Classifier.ClassifyAlert | Sentinel.Analise.Preditiva/Services/RabbitMQService.cs:144-146 | The tier is Alert exactly when no critical limit is crossed and temperature > 70, fluid < 30 or rotation < 1500. |
| Classifier.ClassifyMonotone | Sentinel.Analise.Preditiva/Services/RabbitMQService.cs:142-147 | Higher temperature, less fluid or slower rotation never gives a lower tier (Normal < Alert < Critical). |
| Classifier.ClassifyBoundaries | Sentinel.Analise.Preditiva/Services/RabbitMQService.cs:144-145 | Values exactly at a limit stay in the lower band (80, 20 and 1000 give Alert; 70, 30 and 1500 give Normal). Values just past a limit move up, for each of the three sensors (80.0001, 19.9999 and 999.9999 give Critical; 70.0001, 29.9999 and 1499.9999 give Alert). |
| AnalysisBuilder.FirstValue | Sentinel.Analise.Preditiva/Services/RabbitMQService.cs:82-84 | The result is the value of the earliest reading of the kind, or 0 when the list has no reading of that kind. |
| AnalysisBuilder.FirstValueOfUnique | Sentinel.Analise.Preditiva/Services/RabbitMQService.cs:82-84 | When only one reading has the kind, the extracted value is that reading's value. |
| AnalysisBuilder.Build | Sentinel.Analise.Preditiva/Services/RabbitMQService.cs:80-103 | The record has the given id. Machine and instant come from the first reading. Each value is the first reading of its kind, or 0. The tier is the classifier's result on those three values. Info is the text for that tier. |
| AnalysisBuilder.InfoFor | Sentinel.Analise.Preditiva/Services/RabbitMQService.cs:96-101 | Info is "Dados críticos" exactly for Critical, "Dados em alerta" exactly for Alert and "Dados normais" exactly for Normal. |
| AnalysisBuilder.InfoIdentifiesTier | Sentinel.Analise.Preditiva/Services/RabbitMQService.cs:96-101 | The three Info texts ("Dados críticos", "Dados em alerta", "Dados normais") are pairwise different, so Info determines the tier. |
| AlertDecider.AlertMessage | Sentinel.Analise.Preditiva/Services/RabbitMQService.cs:117-125 | A Critical text starts with "ALERTA CRÍTICO:". An Alert text starts with "ALERTA:" and not with "ALERTA CRÍTICO:". A Normal text is empty. |
| AlertDecider.MessageRoundTrip | Sentinel.Analise.Preditiva/Services/RabbitMQService.cs:119-124 | The tier can be read back from the alert text's prefix, for every machine, every set of values and every number format. |
| AlertDecider.AlertTypeFor | Sentinel.Analise.Preditiva/Services/RabbitMQService.cs:114 | The alert type is "critico" exactly for a Critical analysis, and "alerta" otherwise. |
| AlertDecider.Decide | Sentinel.Analise.Preditiva/Services/RabbitMQService.cs:105-115 | There is no alert exactly when the tier is Normal. Otherwise the alert has the given id and Checado = false. Its alert type is "critico" exactly for Critical and "alerta" exactly for Alert. Its text identifies the tier. |
| Correlation.Step | Sentinel.Analise.Preditiva/Services/RabbitMQService.cs:62-71 | A reading hands out a list exactly when its key is then absent from the buffer. The handed-out list is what was pending for the key followed by the reading, and it is complete. When nothing is handed out, the key holds what was pending followed by the reading. |
| Correlation.KindsAppend | Sentinel.Analise.Preditiva/Services/RabbitMQService.cs:65-66 | Appending a reading adds exactly its kind to the list's set of distinct kinds. |
| Correlation.CompleteIffDistinct | Sentinel.Analise.Preditiva/Services/RabbitMQService.cs:66 | A list passes the completion test (count 3 and 3 distinct kinds) exactly when it has three readings of pairwise different kinds. |
| Correlation.CompleteHasEachKindOnce | Sentinel.Analise.Preditiva/Services/RabbitMQService.cs:66 | A list that passes the completion test holds one reading of every kind, and only one. |
| Correlation.StepEffect | Sentinel.Analise.Preditiva/Services/RabbitMQService.cs:64-70 | One reading leaves the other keys' lists unchanged. Either its key keeps the old list plus the reading and nothing is handed out, or that extended list is complete, is handed out, and the key is removed. |
| Correlation.StepPreservesWellFormed | Sentinel.Analise.Preditiva/Services/RabbitMQService.cs:64-70 | The buffer invariant holds after every reading: each stored list is non-empty, its readings carry its key, and it is not complete. A handed-out list is complete and carries its key. |
| Correlation.FreshWindowAfterCompletion | Sentinel.Analise.Preditiva/Services/RabbitMQService.cs:65-69 | After a completion, the next reading for the same key starts a new one-element list. |
| Correlation.StepConservesReadings | Sentinel.Analise.Preditiva/Services/RabbitMQService.cs:64-70 | For every key, what one reading hands out, followed by what is then pending, is what was pending followed by that reading if it has the key. |
| Correlation.RunConservesReadings | Sentinel.Analise.Preditiva/Services/RabbitMQService.cs:62-71 | Over any sequence of readings and for every key, the handed-out lists followed by the pending list equal the initially pending list followed by that key's readings in order. No reading is lost or handed out twice. |
| Correlation.StallIsPermanent | Sentinel.Analise.Preditiva/Services/RabbitMQService.cs:65-66 | A list of three or more readings is never completed. Later readings for its key only lengthen it, by exactly their number. |
| Correlation.ThreeKindsCompleteOnce | Sentinel.Analise.Preditiva/Services/RabbitMQService.cs:62-71 | Three readings of different kinds for a new key, in any order: the first two are held, the third hands out all three in arrival order, and the buffer returns to its previous state. |
| Correlation.RunWithoutKey | Sentinel.Analise.Preditiva/Services/RabbitMQService.cs:62-71 | Readings of other keys leave a key present or absent as it was and never complete its window. |
| Correlation.CompletesOnceFrom | Sentinel.Analise.Preditiva/Services/RabbitMQService.cs:62-71 | When a key's pending list followed by its later readings forms a complete list, exactly one of those readings hands out that list, and the key is then absent, whatever readings of other keys are interleaved. |
| Correlation.InterleavedKindsCompleteOnce | Sentinel.Analise.Preditiva/Services/RabbitMQService.cs:62-71 | Three readings of pairwise different kinds for a key the buffer does not hold, interleaved in any way with readings of other keys: exactly one reading of that key hands out a window, that window is the three readings in arrival order, and the key is then absent. |
| Correlation.DuplicateStallsFrom | Sentinel.Analise.Preditiva/Services/RabbitMQService.cs:65-66 | When a key's pending list followed by its later readings repeats a kind among its first three entries, no reading of the run completes a window of that key, whatever readings of other keys are interleaved. |
| Correlation.DuplicateKindStallsForever | Sentinel.Analise.Preditiva/Services/RabbitMQService.cs:66 | For a key the buffer does not hold, if two of its first three readings in the run have the same kind, no reading of the run completes a window of that key. Readings of other keys may come before, between or after them. |
| Service.Process | Sentinel.Analise.Preditiva/Services/RabbitMQService.cs:73-78 | A completed window gives the built record. An alert follows exactly when indexing succeeded and the tier is not Normal, and it is the alert that the decision produces. |
| Service.BuildOfCompleteWindow | Sentinel.Analise.Preditiva/Services/RabbitMQService.cs:80-94 | On a complete window the record's machine and instant are the window's key, and each value is the value of the one reading of its kind. |
| Service.BuildIgnoresArrivalOrder | Sentinel.Analise.Preditiva/Services/RabbitMQService.cs:80-94 | Two complete windows of one key with the same readings, in any order, give the same record. |
| Service.SensorService.constructor | Sentinel.Analise.Preditiva/Services/RabbitMQService.cs:16 | The buffer starts empty and satisfies the invariant. |
| Service.SensorService.Ingest | Sentinel.Analise.Preditiva/Services/RabbitMQService.cs:62-71 | The new buffer and the result are exactly the `Step` transition of the old buffer, and the invariant is kept. A handed-out list is complete and carries the reading's key. |
| Service.SensorService.HandleMessage | Sentinel.Analise.Preditiva/Services/RabbitMQService.cs:52-60 | A payload that decodes to null leaves the buffer unchanged and produces nothing. A decoded reading makes the `Step` transition, and a completed window is processed. |

## Left out

- Message transport: queue and exchange configuration (`ConfigurarFilas`, `ConfigurarFila`), consuming (`ExecuteAsync`), acknowledgement (`BasicAck`), publishing (`EnviarParaExchangeAsync`) and `Dispose`. These are calls into the message-bus client. The model stops at the alert and its alert type.
- JSON and UTF-8 decoding of incoming messages and JSON encoding of alerts. These are library calls. Malformed JSON makes `JsonSerializer.Deserialize` throw at line 55, so the acknowledgement at line 59 is skipped; only a payload that decodes to null is dropped and acknowledged, and that case is the `None` input of `HandleMessage`.
- The lookup of the exchange and routing key from the alert type (lines 131-132): both are read from configuration, with `"<type>-exchange"` and `"<type>-key"` as defaults. Configuration is outside the model; `Dispatch.alertType` is the string passed to `EnviarParaExchangeAsync`.
- Null machine and sensor ids. `IdMaquina` and `IdSensor` are nullable strings, and a payload that omits them decodes to null. A null machine id is a buffer key distinct from "" (line 64) and renders as empty in the alert text (line 121). Dafny strings cannot be null, so `Reading.machineId` and `Reading.sensorId` are always strings.
- The search store (`ElasticsearchService`). It is a client call; only its success or failure is a parameter.
- Host start-up and dependency injection (`Program.cs`). This is plumbing.
- Concurrency. The buffer is a concurrent dictionary that several handlers use at once, and its check-then-remove at lines 66-69 is not atomic. `ProcessarDados` is `async void` and runs without being awaited. The model is sequential: one reading at a time.
- Service.Process: when indexing fails, the exception escapes the `async void` method. The model only records that no alert is sent; what the runtime then does with the exception is not modelled.
- Number rendering inside alert texts. It depends on the culture, so it is the parameter `fmt`.
- `GeradorIdUtil.ProximoId()`. GeradorIdUtil is not part of this model; the ids are parameters.
- Floating point. Values are reals, so NaN and infinities are not modelled. With NaN every comparison is false, so a NaN value would never trigger a band.
- Out-of-range sensor kinds. The JSON decoder accepts any number for `TipoSensor`. `SensorKind` has only the three named kinds.
- The 64-bit width of the `long` ids. The ids are only copied, never computed with.
