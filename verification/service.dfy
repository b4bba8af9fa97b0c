/** The service object that owns the correlation buffer and drives the
    processing of completed windows (`RabbitMQService`), without its message
    transport, its search-store client and its concurrency. */
module Service {
  import opened Models
  import opened Classifier
  import opened Correlation
  import opened AnalysisBuilder
  import opened AlertDecider

  /** What a completed window produces: the analysis record handed to the
      search store and, when one is sent, the alert with its alert type. */
  datatype Completion = Completion(analysis: Analysis, dispatch: Option<Dispatch>)

  /** The processing of a completed window (`ProcessarDados`): build the
      record, index it, then decide on an alert. `indexed` is the outcome of
      the indexing call; when it fails the call throws, so no alert is sent. */
  function Process(w: Window, analysisId: int, alertId: int, indexed: bool, fmt: real -> string): (c: Completion)
    requires |w| > 0
    ensures c.analysis == Build(w, analysisId)
    ensures c.dispatch.Some? <==> indexed && c.analysis.tier != Normal
    ensures c.dispatch.Some? ==> c.dispatch == Decide(c.analysis, alertId, fmt)
  {
    var a := Build(w, analysisId);
    Completion(a, if indexed then Decide(a, alertId, fmt) else None)
  }

  /** On a complete window the record does not depend on the order in which
      the three readings arrived: each value is that of the one reading of
      its kind, and the machine and instant are the window's key. */
  lemma {:induction false} BuildOfCompleteWindow(w: Window, id: int, kind: SensorKind, i: nat)
    requires Complete(w) && KeyConsistent(KeyOf(w[0]), w)
    requires i < |w| && w[i].kind == kind
    ensures var a := Build(w, id);
      && (a.machineId, a.time) == KeyOf(w[i])
      && (kind == Temperature ==> a.temperature == w[i].value)
      && (kind == CoolantFluid ==> a.coolantFluid == w[i].value)
      && (kind == EngineRotation ==> a.engineRotation == w[i].value)
  {
    CompleteIffDistinct(w);
    assert forall j :: 0 <= j < |w| && j != i ==> w[j].kind != kind;
    FirstValueOfUnique(w, kind, i);
  }

  /** Two complete windows of the same key holding the same readings in any
      order give the same record. */
  lemma {:induction false} BuildIgnoresArrivalOrder(w1: Window, w2: Window, id: int)
    requires Complete(w1) && Complete(w2)
    requires KeyConsistent(KeyOf(w1[0]), w1) && KeyConsistent(KeyOf(w1[0]), w2)
    requires multiset(w1) == multiset(w2)
    ensures Build(w1, id) == Build(w2, id)
  {
    forall kind: SensorKind
      ensures FirstValue(w1, kind) == FirstValue(w2, kind)
    {
      CompleteHasEachKindOnce(w1, kind);
      var i :| 0 <= i < |w1| && w1[i].kind == kind
               && forall j :: 0 <= j < |w1| && j != i ==> w1[j].kind != kind;
      assert w1[i] in multiset(w2);
      var i2 :| 0 <= i2 < |w2| && w2[i2] == w1[i];
      CompleteIffDistinct(w2);
      assert forall j :: 0 <= j < |w2| && j != i2 ==> w2[j].kind != kind;
      FirstValueOfUnique(w1, kind, i);
      FirstValueOfUnique(w2, kind, i2);
    }
    assert KeyOf(w2[0]) == KeyOf(w1[0]);
  }

  class SensorService {
    /** The correlation buffer (`_buffer`). */
    var buffer: Store

    ghost predicate Valid()
      reads this
    {
      WellFormed(buffer)
    }

    constructor ()
      ensures Valid() && buffer == map[]
    {
      buffer := map[];
    }

    /** `ArmazenarNoBuffer`: append the reading to its key's list, and hand
        the list out and drop the key when it is complete. */
    method Ingest(r: Reading) returns (done: Option<Window>)
      requires Valid()
      modifies this
      ensures Valid()
      ensures buffer == Step(old(buffer), r).0 && done == Step(old(buffer), r).1
      ensures done.Some? ==> Complete(done.value) && KeyConsistent(KeyOf(r), done.value)
    {
      var key := KeyOf(r);
      var list := if key in buffer then buffer[key] + [r] else [r];
      assert list == Pending(old(buffer), key) + [r];
      buffer := buffer[key := list];
      if |list| == 3 && |Kinds(list)| == 3 {
        done := Some(list);
        buffer := buffer - {key};
        assert buffer == old(buffer) - {key};
      } else {
        done := None;
      }
      StepPreservesWellFormed(old(buffer), r);
    }

    /** `ProcessarMensagem` after decoding: a payload that decodes to null
        (`parsed` is None) leaves the buffer alone; a reading is ingested and,
        if it completes its window, the window is processed. Malformed JSON
        makes the decoder throw before this point, and the message is then
        not acknowledged. */
    method HandleMessage(parsed: Option<Reading>, analysisId: int, alertId: int, indexed: bool,
                         fmt: real -> string) returns (c: Option<Completion>)
      requires Valid()
      modifies this
      ensures Valid()
      ensures parsed.None? ==> buffer == old(buffer) && c.None?
      ensures parsed.Some? ==>
        var (next, done) := Step(old(buffer), parsed.value);
        && buffer == next
        && c.Some? == done.Some?
        && (done.Some? ==> c == Some(Process(done.value, analysisId, alertId, indexed, fmt)))
    {
      c := None;
      if parsed.Some? {
        var done := Ingest(parsed.value);
        if done.Some? {
          c := Some(Process(done.value, analysisId, alertId, indexed, fmt));
        }
      }
    }
  }

  /** A client: a critical temperature, then the two other kinds, on a fresh
      service; the third reading completes the window and raises an alert of
      type "critico". */
  method CriticalScenario(fmt: real -> string)
  {
    var service := new SensorService();
    var t := Reading(1, "M1", "S1", Temperature, 85.0, 100, false);
    var f := Reading(2, "M1", "S2", CoolantFluid, 50.0, 100, false);
    var rot := Reading(3, "M1", "S3", EngineRotation, 2000.0, 100, false);
    var key := KeyOf(t);
    var c1 := service.HandleMessage(Some(t), 10, 11, true, fmt);
    assert [] + [t] == [t] && !Complete([t]);
    assert c1.None? && service.buffer == map[key := [t]];
    var c2 := service.HandleMessage(None, 12, 13, true, fmt);
    assert c2.None?;
    var c3 := service.HandleMessage(Some(f), 14, 15, true, fmt);
    assert [t] + [f] == [t, f] && !Complete([t, f]);
    assert c3.None? && service.buffer == map[key := [t, f]];
    var c4 := service.HandleMessage(Some(rot), 16, 17, true, fmt);
    assert [t, f] + [rot] == [t, f, rot];
    CompleteIffDistinct([t, f, rot]);
    assert c4 == Some(Process([t, f, rot], 16, 17, true, fmt));
    var a := c4.value.analysis;
    assert a.temperature == 85.0 && a.tier == Critical;
    assert c4.value.dispatch.Some? && c4.value.dispatch.value.alertType == "critico";
    assert service.buffer == map[];
  }
}
