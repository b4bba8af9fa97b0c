/** The correlation buffer as a value: a map from (machine, instant) to the
    readings received for that key so far, and the transition one incoming
    reading makes (`ArmazenarNoBuffer`). The class in module Service keeps
    such a map in a field and is proved to make exactly this transition. */
module Correlation {
  import opened Models

  type Key = (string, Time)
  type Window = seq<Reading>
  type Store = map<Key, Window>

  /** The sensor kinds present in a window (`Select(s => s.TipoSensor).Distinct()`). */
  function Kinds(w: Window): (ks: set<SensorKind>)
  {
    set i | 0 <= i < |w| :: w[i].kind
  }

  /** The source's completion test: exactly three readings covering three
      distinct kinds. */
  predicate Complete(w: Window)
  {
    |w| == 3 && |Kinds(w)| == 3
  }

  /** The readings held for `k`, or none. */
  function Pending(s: Store, k: Key): (w: Window)
  {
    if k in s then s[k] else []
  }

  /** One incoming reading: append it to its key's list (creating the list
      when the key is absent); if the list is then complete, hand it out and
      remove the key. */
  function Step(s: Store, r: Reading): (res: (Store, Option<Window>))
    ensures res.1.Some? <==> KeyOf(r) !in res.0
    ensures res.1.Some? ==> res.1.value == Pending(s, KeyOf(r)) + [r] && Complete(res.1.value)
    ensures res.1.None? ==> Pending(res.0, KeyOf(r)) == Pending(s, KeyOf(r)) + [r]
  {
    var k := KeyOf(r);
    var w := Pending(s, k) + [r];
    if Complete(w) then (s - {k}, Some(w)) else (s[k := w], None)
  }

  /** A sequence of incoming readings, one output per reading. */
  function Run(s: Store, rs: seq<Reading>): (res: (Store, seq<Option<Window>>))
    ensures |res.1| == |rs|
    decreases |rs|
  {
    if rs == [] then (s, [])
    else
      var next := Step(s, rs[0]);
      var tail := Run(next.0, rs[1..]);
      (tail.0, [next.1] + tail.1)
  }

  /** Every reading of a window carries the window's key. */
  ghost predicate KeyConsistent(k: Key, w: Window)
  {
    forall i :: 0 <= i < |w| ==> KeyOf(w[i]) == k
  }

  /** The buffer invariant: every stored list is non-empty, consistent with
      its key, and not complete (complete lists never stay in the buffer). */
  ghost predicate WellFormed(s: Store)
  {
    forall k :: k in s ==> |s[k]| > 0 && KeyConsistent(k, s[k]) && !Complete(s[k])
  }

  /** Appending a reading adds its kind. */
  lemma KindsAppend(w: Window, r: Reading)
    ensures Kinds(w + [r]) == Kinds(w) + {r.kind}
  {
    var w' := w + [r];
    forall x | x in Kinds(w') ensures x in Kinds(w) + {r.kind} {
      var i :| 0 <= i < |w'| && w'[i].kind == x;
      if i < |w| { assert w'[i] == w[i]; }
    }
    forall x | x in Kinds(w) + {r.kind} ensures x in Kinds(w') {
      if x == r.kind {
        assert w'[|w|].kind == x;
      } else {
        var i :| 0 <= i < |w| && w[i].kind == x;
        assert w'[i].kind == x;
      }
    }
  }

  /** Completion is the same as: three readings of pairwise distinct kinds. */
  lemma CompleteIffDistinct(w: Window)
    ensures Complete(w) <==> |w| == 3 && w[0].kind != w[1].kind
                             && w[0].kind != w[2].kind && w[1].kind != w[2].kind
  {
    if |w| == 3 {
      assert Kinds(w) == {w[0].kind, w[1].kind, w[2].kind};
    }
  }

  /** A complete window holds a reading of every kind, and only one of each. */
  lemma CompleteHasEachKindOnce(w: Window, kind: SensorKind)
    requires Complete(w)
    ensures exists i :: 0 <= i < |w| && w[i].kind == kind
              && forall j :: 0 <= j < |w| && j != i ==> w[j].kind != kind
  {
    CompleteIffDistinct(w);
    if w[0].kind == kind {
      assert forall j :: 0 <= j < |w| && j != 0 ==> w[j].kind != kind;
    } else if w[1].kind == kind {
      assert forall j :: 0 <= j < |w| && j != 1 ==> w[j].kind != kind;
    } else {
      assert w[2].kind == kind;
      assert forall j :: 0 <= j < |w| && j != 2 ==> w[j].kind != kind;
    }
  }

  /** What one reading does: the other keys keep their lists; the reading's
      key either keeps the extended list and nothing is handed out, or the
      extended list is complete, handed out, and the key is gone. */
  lemma StepEffect(s: Store, r: Reading)
    ensures var (s', out) := Step(s, r);
      var k := KeyOf(r);
      && (forall k' :: k' != k ==> (k' in s' <==> k' in s) && (k' in s ==> s'[k'] == s[k']))
      && (out.None? <==> k in s')
      && (out.None? ==> s'[k] == Pending(s, k) + [r])
      && (out.Some? ==> out.value == Pending(s, k) + [r] && Complete(out.value))
  {
  }

  /** The buffer invariant holds after every reading, and a handed-out window
      is complete and carries its key. */
  lemma StepPreservesWellFormed(s: Store, r: Reading)
    requires WellFormed(s)
    ensures WellFormed(Step(s, r).0)
    ensures var out := Step(s, r).1;
      out.Some? ==> Complete(out.value) && KeyConsistent(KeyOf(r), out.value)
  {
  }

  /** After a completion the next reading for the same key starts a fresh
      one-element list: nothing of the handed-out window remains. */
  lemma FreshWindowAfterCompletion(s: Store, r: Reading, next: Reading)
    requires Step(s, r).1.Some? && KeyOf(next) == KeyOf(r)
    ensures var (s', out) := Step(Step(s, r).0, next);
      out.None? && s'[KeyOf(r)] == [next]
  {
  }

  /** The readings of `rs` that belong to window `k`, in order. */
  function OnKey(rs: seq<Reading>, k: Key): (ks: seq<Reading>)
    ensures |ks| <= |rs|
  {
    if rs == [] then []
    else (if KeyOf(rs[0]) == k then [rs[0]] else []) + OnKey(rs[1..], k)
  }

  /** The window handed out by one reading if it has key `k`, else nothing. */
  function DeliveredOne(out: Option<Window>, k: Key): (d: Window)
  {
    if out.Some? && |out.value| > 0 && KeyOf(out.value[0]) == k then out.value else []
  }

  /** The concatenation of the handed-out windows of key `k`, in order. */
  function Delivered(outs: seq<Option<Window>>, k: Key): (d: Window)
  {
    if outs == [] then [] else DeliveredOne(outs[0], k) + Delivered(outs[1..], k)
  }

  /** One reading conserves the readings of every key. */
  lemma StepConservesReadings(s: Store, r: Reading, k: Key)
    requires WellFormed(s)
    ensures DeliveredOne(Step(s, r).1, k) + Pending(Step(s, r).0, k) == Pending(s, k) + OnKey([r], k)
  {
  }

  /** How a run unfolds on its first reading. */
  lemma RunCons(s: Store, rs: seq<Reading>)
    requires rs != []
    ensures Run(s, rs).0 == Run(Step(s, rs[0]).0, rs[1..]).0
    ensures Run(s, rs).1 == [Step(s, rs[0]).1] + Run(Step(s, rs[0]).0, rs[1..]).1
  {
  }

  lemma DeliveredCons(out: Option<Window>, outs: seq<Option<Window>>, k: Key)
    ensures Delivered([out] + outs, k) == DeliveredOne(out, k) + Delivered(outs, k)
  {
    assert ([out] + outs)[1..] == outs;
  }

  lemma OnKeyCons(rs: seq<Reading>, k: Key)
    requires rs != []
    ensures OnKey(rs, k) == OnKey([rs[0]], k) + OnKey(rs[1..], k)
  {
    assert [rs[0]][1..] == [];
  }

  /** Regrouping of concatenations used by RunConservesReadings. */
  lemma Regroup<T>(d1: seq<T>, d2: seq<T>, p2: seq<T>, p1: seq<T>, o1: seq<T>, o2: seq<T>, p0: seq<T>)
    requires d2 + p2 == p1 + o2
    requires d1 + p1 == p0 + o1
    ensures (d1 + d2) + p2 == p0 + (o1 + o2)
  {
    calc {
      (d1 + d2) + p2;
      d1 + (d2 + p2);
      d1 + (p1 + o2);
      (d1 + p1) + o2;
      (p0 + o1) + o2;
      p0 + (o1 + o2);
    }
  }

  /** No reading is lost or counted twice: for every key, the windows handed
      out followed by what is still pending are exactly what was pending
      before followed by the new readings of that key. */
  lemma {:induction false} RunConservesReadings(s: Store, rs: seq<Reading>, k: Key)
    requires WellFormed(s)
    ensures Delivered(Run(s, rs).1, k) + Pending(Run(s, rs).0, k) == Pending(s, k) + OnKey(rs, k)
    decreases |rs|
  {
    if rs != [] {
      var r, rest := rs[0], rs[1..];
      var s1, out := Step(s, r).0, Step(s, r).1;
      StepPreservesWellFormed(s, r);
      StepConservesReadings(s, r, k);
      RunConservesReadings(s1, rest, k);
      var s2, outs := Run(s1, rest).0, Run(s1, rest).1;
      RunCons(s, rs);
      DeliveredCons(out, outs, k);
      OnKeyCons(rs, k);
      Regroup(DeliveredOne(out, k), Delivered(outs, k), Pending(s2, k), Pending(s1, k),
              OnKey([r], k), OnKey(rest, k), Pending(s, k));
    }
  }

  /** Reading `i` of `rs` belongs to key `k` and completed a window. */
  predicate CompletesKey(rs: seq<Reading>, outs: seq<Option<Window>>, k: Key, i: int)
    requires |rs| == |outs|
  {
    0 <= i < |rs| && KeyOf(rs[i]) == k && outs[i].Some?
  }

  /** A list that has reached three readings without completing never
      completes: every later reading for its key only makes it longer. */
  lemma {:induction false} StallIsPermanent(s: Store, rs: seq<Reading>, k: Key)
    requires k in s && |s[k]| >= 3
    ensures var (s', outs) := Run(s, rs);
      && k in s' && |s'[k]| == |s[k]| + |OnKey(rs, k)|
      && forall i :: !CompletesKey(rs, outs, k, i)
    decreases |rs|
  {
    if rs != [] {
      var r := rs[0];
      var s1, out := Step(s, r).0, Step(s, r).1;
      assert [r][1..] == [];
      assert k in s1 && |s1[k]| == |s[k]| + |OnKey([r], k)|;
      StallIsPermanent(s1, rs[1..], k);
      var outs := Run(s1, rs[1..]).1;
      RunCons(s, rs);
      OnKeyCons(rs, k);
      forall i ensures !CompletesKey(rs, [out] + outs, k, i) {
        if 0 < i < |rs| {
          assert !CompletesKey(rs[1..], outs, k, i - 1);
        }
      }
    }
  }

  /** Three readings for a fresh key with pairwise distinct kinds, in any
      order: the first two are held, the third hands out all three, and the
      buffer is back where it started. */
  lemma ThreeKindsCompleteOnce(s: Store, r1: Reading, r2: Reading, r3: Reading)
    requires KeyOf(r1) !in s
    requires KeyOf(r2) == KeyOf(r1) && KeyOf(r3) == KeyOf(r1)
    requires r1.kind != r2.kind && r1.kind != r3.kind && r2.kind != r3.kind
    ensures Run(s, [r1, r2, r3]) == (s, [None, None, Some([r1, r2, r3])])
  {
    var k := KeyOf(r1);
    var s1, s2 := s[k := [r1]], s[k := [r1, r2]];
    assert Pending(s, KeyOf(r1)) + [r1] == [r1] && !Complete([r1]);
    assert Step(s, r1) == (s1, None);
    assert Pending(s1, KeyOf(r2)) + [r2] == [r1, r2] && !Complete([r1, r2]);
    assert s1[k := [r1, r2]] == s2;
    assert Step(s1, r2) == (s2, None);
    assert Pending(s2, KeyOf(r3)) + [r3] == [r1, r2, r3];
    CompleteIffDistinct([r1, r2, r3]);
    assert s2 - {k} == s;
    assert Step(s2, r3) == (s, Some([r1, r2, r3]));
    assert [r1, r2, r3][1..] == [r2, r3] && [r2, r3][1..] == [r3] && [r3][1..] == [];
    assert [r3][0] == r3 && [r2, r3][0] == r2 && [r1, r2, r3][0] == r1;
    assert Run(s, []) == (s, []);
    assert Run(s2, [r3]).0 == s && Run(s2, [r3]).1 == [Some([r1, r2, r3])];
    assert Run(s1, [r2, r3]).0 == s && Run(s1, [r2, r3]).1 == [None, Some([r1, r2, r3])];
    assert Run(s, [r1, r2, r3]).0 == s && Run(s, [r1, r2, r3]).1 == [None, None, Some([r1, r2, r3])];
  }

  /** Two of the first three readings of a key's list share a kind. */
  predicate DuplicateAmongFirstThree(w: Window)
  {
    |w| >= 3 && (w[0].kind == w[1].kind || w[0].kind == w[2].kind || w[1].kind == w[2].kind)
  }

  /** A reading of another key leaves what is pending for `k`, and what is
      still to come for `k`, as they were. */
  lemma OtherKeyStep(s: Store, rs: seq<Reading>, k: Key)
    requires rs != [] && KeyOf(rs[0]) != k
    ensures Pending(Step(s, rs[0]).0, k) + OnKey(rs[1..], k) == Pending(s, k) + OnKey(rs, k)
  {
    OnKeyCons(rs, k);
    assert [rs[0]][1..] == [];
    StepEffect(s, rs[0]);
  }

  /** A reading of `k` that keeps the list at three entries or fewer, with a
      repeated kind among the first three of the list it is building,
      completes nothing and moves from what is to come to what is pending. */
  lemma SameKeyStallStep(s: Store, rs: seq<Reading>, k: Key)
    requires rs != [] && KeyOf(rs[0]) == k && |Pending(s, k)| < 3
    requires DuplicateAmongFirstThree(Pending(s, k) + OnKey(rs, k))
    ensures Step(s, rs[0]).1.None?
    ensures Pending(Step(s, rs[0]).0, k) + OnKey(rs[1..], k) == Pending(s, k) + OnKey(rs, k)
  {
    var r, rest := rs[0], rs[1..];
    var p := Pending(s, k) + OnKey(rs, k);
    var w := Pending(s, k) + [r];
    OnKeyCons(rs, k);
    assert [r][1..] == [];
    assert OnKey([r], k) == [r];
    assert p == w + OnKey(rest, k);
    if |w| == 3 {
      assert w[0] == p[0] && w[1] == p[1] && w[2] == p[2];
      CompleteIffDistinct(w);
    }
    assert !Complete(w);
  }

  /** When what is pending for `k` followed by the later readings of `k` has a
      repeated kind among its first three entries, no reading of the run
      completes a window of `k`. */
  lemma {:induction false} DuplicateStallsFrom(s: Store, rs: seq<Reading>, k: Key)
    requires DuplicateAmongFirstThree(Pending(s, k) + OnKey(rs, k))
    ensures forall i :: !CompletesKey(rs, Run(s, rs).1, k, i)
    decreases |rs|
  {
    if |Pending(s, k)| >= 3 {
      StallIsPermanent(s, rs, k);
    } else {
      assert rs != [];
      if KeyOf(rs[0]) != k {
        OtherKeyStep(s, rs, k);
      } else {
        SameKeyStallStep(s, rs, k);
      }
      var s1, rest := Step(s, rs[0]).0, rs[1..];
      DuplicateStallsFrom(s1, rest, k);
      RunCons(s, rs);
      forall i | 0 < i < |rs| ensures !CompletesKey(rs, Run(s, rs).1, k, i) {
        assert !CompletesKey(rest, Run(s1, rest).1, k, i - 1);
      }
    }
  }

  /** Two readings of the same kind among the first three readings for a key
      the buffer does not hold stall that key's window for good, whatever
      readings of other keys come before, between or after them: no reading
      of the run completes a window of that key. */
  lemma DuplicateKindStallsForever(s: Store, rs: seq<Reading>, k: Key)
    requires k !in s
    requires DuplicateAmongFirstThree(OnKey(rs, k))
    ensures forall i :: !CompletesKey(rs, Run(s, rs).1, k, i)
  {
    assert Pending(s, k) + OnKey(rs, k) == OnKey(rs, k);
    DuplicateStallsFrom(s, rs, k);
  }

  /** Readings that all belong to other keys leave key `k` present or absent
      as it was, and none of them completes a window of `k`. */
  lemma {:induction false} RunWithoutKey(s: Store, rs: seq<Reading>, k: Key)
    requires OnKey(rs, k) == []
    ensures k in Run(s, rs).0 <==> k in s
    ensures forall i :: !CompletesKey(rs, Run(s, rs).1, k, i)
    decreases |rs|
  {
    if rs != [] {
      var r := rs[0];
      OnKeyCons(rs, k);
      assert [r][1..] == [];
      assert KeyOf(r) != k;
      var s1 := Step(s, r).0;
      RunWithoutKey(s1, rs[1..], k);
      RunCons(s, rs);
      forall i ensures !CompletesKey(rs, Run(s, rs).1, k, i) {
        if 0 < i < |rs| {
          assert !CompletesKey(rs[1..], Run(s1, rs[1..]).1, k, i - 1);
        }
      }
    }
  }

  /** The run hands out `w` at exactly one reading of `k`, and `k` ends up
      outside the buffer. */
  ghost predicate CompletesOnceWith(s: Store, rs: seq<Reading>, k: Key, w: Window)
  {
    var (s', outs) := Run(s, rs);
    && k !in s'
    && (exists i :: CompletesKey(rs, outs, k, i) && outs[i] == Some(w))
    && (forall i, j :: CompletesKey(rs, outs, k, i) && CompletesKey(rs, outs, k, j) ==> i == j)
  }

  /** A first reading that does not complete a window of `k` passes the
      single completion of the rest of the run on to the whole run. */
  lemma LiftCompletion(s: Store, rs: seq<Reading>, k: Key, w: Window)
    requires rs != []
    requires KeyOf(rs[0]) != k || Step(s, rs[0]).1.None?
    requires CompletesOnceWith(Step(s, rs[0]).0, rs[1..], k, w)
    ensures CompletesOnceWith(s, rs, k, w)
  {
    var s1, rest := Step(s, rs[0]).0, rs[1..];
    RunCons(s, rs);
    var outs, tail := Run(s, rs).1, Run(s1, rest).1;
    assert outs == [Step(s, rs[0]).1] + tail;
    var i' :| CompletesKey(rest, tail, k, i') && tail[i'] == Some(w);
    assert CompletesKey(rs, outs, k, i' + 1) && outs[i' + 1] == Some(w);
    forall i, j | CompletesKey(rs, outs, k, i) && CompletesKey(rs, outs, k, j) ensures i == j {
      assert CompletesKey(rest, tail, k, i - 1) && CompletesKey(rest, tail, k, j - 1);
    }
  }

  /** A first reading that completes `w` for `k`, followed only by readings of
      other keys, is the single completion of the run. */
  lemma CompletionAtHead(s: Store, rs: seq<Reading>, k: Key, w: Window)
    requires rs != [] && KeyOf(rs[0]) == k && Step(s, rs[0]).1 == Some(w)
    requires OnKey(rs[1..], k) == []
    ensures CompletesOnceWith(s, rs, k, w)
  {
    var s1, rest := Step(s, rs[0]).0, rs[1..];
    RunWithoutKey(s1, rest, k);
    RunCons(s, rs);
    var outs, tail := Run(s, rs).1, Run(s1, rest).1;
    assert outs == [Step(s, rs[0]).1] + tail;
    assert CompletesKey(rs, outs, k, 0) && outs[0] == Some(w);
    forall i | 0 < i < |rs| ensures !CompletesKey(rs, outs, k, i) {
      assert !CompletesKey(rest, tail, k, i - 1);
    }
  }

  /** When what is pending for `k` followed by the later readings of `k` makes
      up the complete window `w`, the run hands out `w` at exactly one reading
      of `k`, and `k` is no longer in the buffer afterwards. */
  lemma {:induction false} CompletesOnceFrom(s: Store, rs: seq<Reading>, k: Key, w: Window)
    requires WellFormed(s) && Complete(w)
    requires OnKey(rs, k) != [] && Pending(s, k) + OnKey(rs, k) == w
    ensures CompletesOnceWith(s, rs, k, w)
    decreases |rs|
  {
    var r, rest := rs[0], rs[1..];
    var s1, out := Step(s, r).0, Step(s, r).1;
    OnKeyCons(rs, k);
    assert [r][1..] == [];
    StepPreservesWellFormed(s, r);
    assert w == (Pending(s, k) + OnKey([r], k)) + OnKey(rest, k);
    if KeyOf(r) != k {
      assert OnKey(rest, k) == OnKey(rs, k);
      CompletesOnceFrom(s1, rest, k, w);
      LiftCompletion(s, rs, k, w);
    } else if out.Some? {
      assert OnKey([r], k) == [r];
      assert |OnKey(rest, k)| == 0;
      assert w == Pending(s, k) + [r];
      CompletionAtHead(s, rs, k, w);
    } else {
      assert OnKey([r], k) == [r];
      assert Pending(s1, k) == Pending(s, k) + [r] && !Complete(s1[k]);
      assert OnKey(rest, k) != [];
      assert Pending(s1, k) + OnKey(rest, k) == w;
      CompletesOnceFrom(s1, rest, k, w);
      LiftCompletion(s, rs, k, w);
    }
  }

  /** Three readings of pairwise distinct kinds for a key the buffer does not
      hold, interleaved in any way with readings of other keys: exactly one
      reading of that key hands out the window, the window is the three
      readings in arrival order, and the key is gone from the buffer. */
  lemma InterleavedKindsCompleteOnce(s: Store, rs: seq<Reading>, k: Key, r1: Reading, r2: Reading, r3: Reading)
    requires WellFormed(s) && k !in s
    requires OnKey(rs, k) == [r1, r2, r3]
    requires r1.kind != r2.kind && r1.kind != r3.kind && r2.kind != r3.kind
    ensures k !in Run(s, rs).0
    ensures exists i :: CompletesKey(rs, Run(s, rs).1, k, i) && Run(s, rs).1[i] == Some([r1, r2, r3])
    ensures forall i, j :: CompletesKey(rs, Run(s, rs).1, k, i) && CompletesKey(rs, Run(s, rs).1, k, j) ==> i == j
  {
    CompleteIffDistinct([r1, r2, r3]);
    assert Pending(s, k) + OnKey(rs, k) == [r1, r2, r3];
    CompletesOnceFrom(s, rs, k, [r1, r2, r3]);
    assert CompletesOnceWith(s, rs, k, [r1, r2, r3]);
  }
}
