/**
  The progress records of src/main.rs and the meaning of the two resumable
  loops, as functions: `InnerLoop` and `OuterLoop` run the dispatch loops of
  `some_function2` and `some_function` from a given record, and
  `InnerTask` and `OuterTask` run each whole function against the file map,
  including the load at the start and the store's finaliser on every exit.

  Cancellation is a `Driver`: it lets a number of suspension points (the
  `sleep(..).await` calls) pass and cancels the task at the next one. The
  task's code never observes the driver except at those points.
*/
module Progress {
  import opened Wrappers
  import opened Encoding
  import opened CheckpointStore

  /** Identity of the store of `some_function`. */
  const OuterId: nat := 973298479
  /** Identity of the store of `some_function2`. */
  const InnerId: nat := 160182641

  /** `MyState` of `some_function`. */
  datatype MyState = MyState(resumingPosition: U64, valx: I32, valy: I32)

  /** `MyOtherState` of `some_function2`. */
  datatype MyOtherState = MyOtherState(resumingPosition: U64, a: Usizes)

  /** The file of `some_function`'s record. */
  const OuterName: string := "state-973298479"
  /** The file of `some_function2`'s record. */
  const InnerName: string := "state-160182641"

  /** The name `file_name` gives `some_function`'s store. */
  lemma OuterNameIs()
    ensures FileName(OuterId) == OuterName
  {
    OuterDigits();
    assert Prefix + "973298479" == OuterName;
  }

  lemma OuterDigits()
    ensures DecimalString(OuterId) == "973298479"
  {
    assert DecimalString(97329) == "97329";
  }

  /** The name `file_name` gives `some_function2`'s store. */
  lemma InnerNameIs()
    ensures FileName(InnerId) == InnerName
  {
    InnerDigits();
    assert Prefix + "160182641" == InnerName;
  }

  lemma InnerDigits()
    ensures DecimalString(InnerId) == "160182641"
  {
    assert DecimalString(16018) == "16018";
  }

  /** The two stores use distinct records. */
  lemma NamesDiffer()
    ensures OuterName != InnerName
  {
    assert OuterName[6] != InnerName[6];
  }

  const FreshOuter: MyState := MyState(0, 0, 0)
  const FreshInner: MyOtherState := MyOtherState(0, [])

  // ----- record codecs ----------------------------------------------------

  function EncodeMyState(s: MyState): (r: Bytes)
    ensures |r| == 16
  {
    EncodeU64(s.resumingPosition) + EncodeI32(s.valx) + EncodeI32(s.valy)
  }

  /** Fails only when fewer than 16 bytes are present; extra bytes are ignored. */
  function DecodeMyState(bs: Bytes): (r: Option<MyState>)
    ensures r.None? <==> |bs| < 16
  {
    if |bs| < 16 then None
    else Some(MyState(DecodeU64(bs[..8]), DecodeI32(bs[8..12]), DecodeI32(bs[12..16])))
  }

  lemma MyStateRoundTrip(s: MyState)
    ensures DecodeMyState(EncodeMyState(s)) == Some(s)
  {
    var bs := EncodeMyState(s);
    assert bs[..8] == EncodeU64(s.resumingPosition);
    assert bs[8..12] == EncodeI32(s.valx);
    assert bs[12..16] == EncodeI32(s.valy);
    U64RoundTrip(s.resumingPosition);
    I32RoundTrip(s.valx);
    I32RoundTrip(s.valy);
  }

  function EncodeMyOtherState(s: MyOtherState): (r: Bytes)
    ensures |r| == 16 + 8 * |s.a|
  {
    EncodeU64(s.resumingPosition) + EncodeUsizes(s.a)
  }

  /**
    Fails exactly when the position or the length prefix is cut off, or when
    the length prefix asks for more entries than the remaining bytes hold;
    extra bytes are ignored.
  */
  function DecodeMyOtherState(bs: Bytes): (r: Option<MyOtherState>)
    ensures r.None? <==> |bs| < 16 || |bs| < 16 + 8 * DecodeU64(bs[8..16])
  {
    assert |bs| >= 16 ==> bs[8..][..8] == bs[8..16];
    if |bs| < 8 then None
    else match DecodeUsizes(bs[8..])
      case None => None
      case Some(a) => Some(MyOtherState(DecodeU64(bs[..8]), a))
  }

  lemma MyOtherStateRoundTrip(s: MyOtherState)
    ensures DecodeMyOtherState(EncodeMyOtherState(s)) == Some(s)
  {
    var bs := EncodeMyOtherState(s);
    assert bs[..8] == EncodeU64(s.resumingPosition);
    assert bs[8..] == EncodeUsizes(s.a) + [];
    U64RoundTrip(s.resumingPosition);
    UsizesRoundTrip(s.a, []);
  }

  /** A record cut short anywhere before its end does not decode. */
  lemma TruncatedMyOtherStateFails(s: MyOtherState, k: nat)
    requires k < |EncodeMyOtherState(s)|
    ensures DecodeMyOtherState(EncodeMyOtherState(s)[..k]).None?
  {
    var bs := EncodeMyOtherState(s)[..k];
    if k >= 16 {
      assert bs[8..16] == EncodeU64(|s.a|);
      U64RoundTrip(|s.a|);
    }
  }

  const OuterCodec: Codec<MyState> := Codec(EncodeMyState, DecodeMyState)
  const InnerCodec: Codec<MyOtherState> := Codec(EncodeMyOtherState, DecodeMyOtherState)

  lemma CodecsRoundTrip()
    ensures RoundTrips(OuterCodec) && RoundTrips(InnerCodec)
  {
    forall s: MyState ensures OuterCodec.decode(OuterCodec.encode(s)) == Some(s) {
      MyStateRoundTrip(s);
    }
    forall s: MyOtherState ensures InnerCodec.decode(InnerCodec.encode(s)) == Some(s) {
      MyOtherStateRoundTrip(s);
    }
  }

  // ----- cancellation and exits -------------------------------------------

  /** When the task is cancelled: never, or at the suspension point after `passes` others. */
  datatype Driver = Never | After(passes: nat) {
    /** Cancellation lands at the suspension point now reached. */
    predicate Fires() {
      this == After(0)
    }

    /** The driver after one suspension point has passed. */
    function Passed(): (d: Driver)
      requires !Fires()
      ensures Never? <==> d.Never?
    {
      if Never? then Never else After(passes - 1)
    }
  }

  /** How a run ends: normally, cancelled at a suspension point, or by a panic. */
  datatype Exit = Completed | Cancelled | Panicked

  /** Where a dispatch loop stops: how, with which record, and what is left of the driver. */
  datatype LoopEnd<S> = LoopEnd(exit: Exit, last: S, rest: Driver)

  /** The end of a whole run: `LoopEnd` plus the file map after the finaliser. */
  datatype TaskEnd<S> = TaskEnd(exit: Exit, last: S, rest: Driver, files: Files)

  // ----- some_function2 ---------------------------------------------------

  /** The vector `0, 1, ..., k-1`. */
  function Iota(k: nat): (r: Usizes)
    requires k < U64Limit
    ensures |r| == k
    ensures forall j :: 0 <= j < k ==> r[j] == j
  {
    if k == 0 then [] else Iota(k - 1) + [k - 1]
  }

  function InnerMeasure(s: MyOtherState): nat {
    if s.resumingPosition != 0 then 0
    else if |s.a| > 100 then 1
    else 102 - |s.a|
  }

  /**
    The dispatch loop of `some_function2` from record `s`. Position 0 pushes
    the next index (the local `i`, always equal to the vector's length) and
    suspends until the vector holds more than 100 entries, then moves to
    position 1 without suspending; position 1 completes; any other position
    panics.
  */
  function InnerLoop(s: MyOtherState, d: Driver): (r: LoopEnd<MyOtherState>)
    decreases InnerMeasure(s)
    ensures s.a <= r.last.a
    ensures r.exit == Completed ==> r.last.resumingPosition == 1
    ensures r.exit == Completed && s.resumingPosition == 0 ==> |r.last.a| > 100
    ensures r.exit == Cancelled ==> r.last.resumingPosition == 0 && |s.a| < |r.last.a| <= 101
    ensures r.exit == Panicked <==> s.resumingPosition > 1
    ensures r.exit == Panicked ==> r.last == s
    ensures s.resumingPosition <= r.last.resumingPosition
  {
    match s.resumingPosition
    case 0 =>
      if |s.a| > 100 then InnerLoop(s.(resumingPosition := 1), d)
      else
        var next := s.(a := s.a + [|s.a|]);
        if d.Fires() then LoopEnd(Cancelled, next, d) else InnerLoop(next, d.Passed())
    case 1 => LoopEnd(Completed, s, d)
    case _ => LoopEnd(Panicked, s, d)
  }

  /**
    The whole of `some_function2`, run against the file map `f`: load the
    record (a record that does not decode panics, and the finaliser then
    persists the default value over it), run the loop from the loaded value
    with the record deleted, persist on every exit but completion.
  */
  function InnerTask(f: Files, d: Driver): TaskEnd<MyOtherState>
  {
    var name := InnerName;
    if name in f && DecodeMyOtherState(f[name]).None? then
      TaskEnd(Panicked, FreshInner, d, f[name := EncodeMyOtherState(FreshInner)])
    else
      var s0 := if name in f then DecodeMyOtherState(f[name]).value else FreshInner;
      InnerFinish(InnerLoop(s0, d), f - {name})
  }

  /** The finaliser of `some_function2`'s store: persist unless completed. */
  function InnerFinish(r: LoopEnd<MyOtherState>, f: Files): TaskEnd<MyOtherState>
  {
    TaskEnd(r.exit, r.last, r.rest,
            if r.exit == Completed then f else f[InnerName := EncodeMyOtherState(r.last)])
  }

  /**
    Whatever the file map and the cancellation point, `some_function2`
    touches no file but its own record, and leaves that record exactly when
    it did not complete, holding the last progress value.
  */
  lemma InnerTaskRecord(f: Files, d: Driver)
    ensures var r := InnerTask(f, d);
      && r.files - {InnerName} == f - {InnerName}
      && (r.exit == Completed <==> InnerName !in r.files)
      && (r.exit != Completed ==> r.files[InnerName] == EncodeMyOtherState(r.last))
  {
    var name := InnerName;
    var r := InnerTask(f, d);
    if name in f && DecodeMyOtherState(f[name]).None? {
      assert r.files - {name} == f - {name};
    } else {
      assert r.files - {name} == f - {name} - {name};
    }
  }

  // ----- some_function ----------------------------------------------------

  function OuterMeasure(s: MyState): nat {
    if s.resumingPosition == 0 then 0x2_0000_0000
    else if s.resumingPosition == 1 then I32Max - s.valx + 2
    else if s.resumingPosition == 2 then 1
    else 0
  }

  /**
    The dispatch loop of `some_function` from a record past stage 0. A
    position-1 tick adds 1 to `valx` and 2 to `valy` (an overflow panics,
    as `i32` arithmetic does in a debug build, after any increment already
    made); it then moves to position 2 without suspending if both exceed
    100 and 200, and suspends otherwise. Position 2 completes; any other
    position panics.
  */
  function OuterLoop(s: MyState, d: Driver): (r: LoopEnd<MyState>)
    requires s.resumingPosition != 0
    decreases OuterMeasure(s)
    ensures s.valx <= r.last.valx && s.valy <= r.last.valy
    ensures r.exit == Completed ==> r.last.resumingPosition == 2
    ensures r.exit == Completed && s.resumingPosition == 1 ==> r.last.valx > 100 && r.last.valy > 200
    ensures r.exit == Cancelled ==> r.last.resumingPosition == 1 && !(r.last.valx > 100 && r.last.valy > 200)
    ensures s.resumingPosition in {1, 2} ==> s.resumingPosition <= r.last.resumingPosition <= 2
    ensures s.resumingPosition > 2 ==> r == LoopEnd(Panicked, s, d)
  {
    match s.resumingPosition
    case 1 =>
      if s.valx == I32Max then LoopEnd(Panicked, s, d)
      else if s.valy > I32Max - 2 then LoopEnd(Panicked, s.(valx := s.valx + 1), d)
      else
        var t := s.(valx := s.valx + 1, valy := s.valy + 2);
        if t.valx > 100 && t.valy > 200 then OuterLoop(t.(resumingPosition := 2), d)
        else if d.Fires() then LoopEnd(Cancelled, t, d)
        else OuterLoop(t, d.Passed())
    case 2 => LoopEnd(Completed, s, d)
    case _ => LoopEnd(Panicked, s, d)
  }

  /**
    The whole of `some_function`, run against the file map `f`: load the
    record (a record that does not decode panics, and the finaliser then
    persists the default value over it), run from the loaded value with the
    record deleted, persist on every exit but completion.
  */
  function OuterTask(f: Files, d: Driver): TaskEnd<MyState>
  {
    var name := OuterName;
    if name in f && DecodeMyState(f[name]).None? then
      TaskEnd(Panicked, FreshOuter, d, f[name := EncodeMyState(FreshOuter)])
    else
      OuterResume(if name in f then DecodeMyState(f[name]).value else FreshOuter, f - {name}, d)
  }

  /**
    `some_function` after its load, from progress `s0` with file map `f0`.
    Stage 0 runs `some_function2` to its end; if that did not complete, the
    same cancellation or panic ends this run too and the loaded value is
    persisted again. Otherwise position 1 is set without suspending.
  */
  function OuterResume(s0: MyState, f0: Files, d: Driver): TaskEnd<MyState>
  {
    if s0.resumingPosition == 0 then
      var inner := InnerTask(f0, d);
      if inner.exit != Completed then
        TaskEnd(inner.exit, s0, inner.rest, inner.files[OuterName := EncodeMyState(s0)])
      else
        OuterFinish(OuterLoop(s0.(resumingPosition := 1), inner.rest), inner.files)
    else
      OuterFinish(OuterLoop(s0, d), f0)
  }

  /** The finaliser of `some_function`'s store: persist unless completed. */
  function OuterFinish(r: LoopEnd<MyState>, f: Files): TaskEnd<MyState>
  {
    TaskEnd(r.exit, r.last, r.rest,
            if r.exit == Completed then f else f[OuterName := EncodeMyState(r.last)])
  }

  /** The facts `OuterTaskRecord` states, for one run from file map `f`. */
  ghost predicate RecordFacts(f: Files, r: TaskEnd<MyState>) {
    && r.files - {OuterName, InnerName} == f - {OuterName, InnerName}
    && (r.exit == Completed <==> OuterName !in r.files)
    && (r.exit != Completed ==> r.files[OuterName] == EncodeMyState(r.last))
  }

  /**
    Whatever the file map and the cancellation point: the run touches no
    file but the two records; it leaves its own record exactly when it did
    not complete, and that record encodes the last progress value.
  */
  lemma OuterTaskRecord(f: Files, d: Driver)
    ensures RecordFacts(f, OuterTask(f, d))
  {
    NamesDiffer();
    var name := OuterName;
    if name in f && DecodeMyState(f[name]).None? {
      var both := {name, InnerName};
      var r := TaskEnd(Panicked, FreshOuter, d, f[name := EncodeMyState(FreshOuter)]);
      assert r.files - both == f - both;
    } else {
      var s0 := if name in f then DecodeMyState(f[name]).value else FreshOuter;
      ResumeRecord(f - {name}, s0, d);
      assert f - {name} - {name, InnerName} == f - {name, InnerName};
    }
  }

  lemma ResumeRecord(f0: Files, s0: MyState, d: Driver)
    requires OuterName !in f0
    ensures RecordFacts(f0, OuterResume(s0, f0, d))
  {
    if s0.resumingPosition == 0 {
      StageZeroRecord(f0, s0, d);
    } else {
      FinishRecord(OuterLoop(s0, d), f0, f0);
    }
  }

  lemma StageZeroRecord(f0: Files, s0: MyState, d: Driver)
    requires OuterName !in f0
    requires s0.resumingPosition == 0
    ensures RecordFacts(f0, OuterResume(s0, f0, d))
  {
    var name, iname := OuterName, InnerName;
    var both := {name, iname};
    var inner := InnerTask(f0, d);
    InnerTaskRecord(f0, d);
    assert inner.files - both == f0 - both by {
      assert inner.files - {iname} == f0 - {iname};
      assert inner.files - both == (inner.files - {iname}) - {name};
      assert f0 - both == (f0 - {iname}) - {name};
    }
    if inner.exit == Completed {
      FinishRecord(OuterLoop(s0.(resumingPosition := 1), inner.rest), inner.files, f0);
    } else {
      assert inner.files[name := EncodeMyState(s0)] - both == inner.files - both;
    }
  }

  lemma FinishRecord(l: LoopEnd<MyState>, f: Files, f0: Files)
    requires OuterName !in f
    requires f - {OuterName, InnerName} == f0 - {OuterName, InnerName}
    ensures RecordFacts(f0, OuterFinish(l, f))
  {
    var both := {OuterName, InnerName};
    assert OuterFinish(l, f).files - both == f - both;
  }

  /** The progress values `some_function` ever persists: stage 0 or 1, with `valy == 2 * valx` and `valx <= 100`. */
  ghost predicate Persistable(s: MyState) {
    s.resumingPosition <= 1 && 0 <= s.valx <= 100 && s.valy == 2 * s.valx
  }

  /** The own record, when it decodes, holds a value `some_function` persists. */
  ghost predicate PersistableRecord(f: Files) {
    OuterName in f && DecodeMyState(f[OuterName]).Some? ==> Persistable(DecodeMyState(f[OuterName]).value)
  }

  /**
    Runs of `some_function`, under any cancellation point, keep the own
    record among the values the code persists. Such a run panics only on a
    corrupt own record or inside `some_function2`: the `i32` additions of
    stage 1 never overflow and the position is never undefined.
  */
  lemma PersistedRecordsClosed(f: Files, d: Driver)
    requires PersistableRecord(f)
    ensures PersistableRecord(OuterTask(f, d).files)
    ensures OuterTask(f, d).exit == Panicked ==>
      (OuterName in f && DecodeMyState(f[OuterName]).None?) || InnerTask(f - {OuterName}, d).exit == Panicked
  {
    var name := OuterName;
    if name in f && DecodeMyState(f[name]).None? {
      MyStateRoundTrip(FreshOuter);
    } else {
      var s0 := if name in f then DecodeMyState(f[name]).value else FreshOuter;
      ResumePersistable(s0, f - {name}, d);
    }
  }

  lemma ResumePersistable(s0: MyState, f0: Files, d: Driver)
    requires Persistable(s0) && OuterName !in f0
    ensures PersistableRecord(OuterResume(s0, f0, d).files)
    ensures OuterResume(s0, f0, d).exit == Panicked ==> InnerTask(f0, d).exit == Panicked
  {
    var x: nat := s0.valx;
    if s0.resumingPosition == 0 {
      var inner := InnerTask(f0, d);
      if inner.exit == Completed {
        InnerTaskRecord(f0, d);
        NamesDiffer();
        assert OuterName !in inner.files by {
          assert OuterName !in inner.files - {InnerName};
        }
        assert s0.(resumingPosition := 1) == MyState(1, x, 2 * x);
        Stage1Persistable(x, inner.rest, inner.files);
      } else {
        MyStateRoundTrip(s0);
      }
    } else {
      assert s0 == MyState(1, x, 2 * x);
      Stage1Persistable(x, d, f0);
    }
  }

  lemma Stage1Persistable(x: nat, d: Driver, f: Files)
    requires x <= 100 && OuterName !in f
    ensures PersistableRecord(OuterFinish(OuterLoop(MyState(1, x, 2 * x), d), f).files)
    ensures OuterLoop(MyState(1, x, 2 * x), d).exit != Panicked
  {
    Stage1From(x, d);
    MyStateRoundTrip(OuterLoop(MyState(1, x, 2 * x), d).last);
  }

  // ----- closed forms of the two loops -------------------------------------

  /**
    `some_function2` from a vector `0..k-1` at position 0: it pushes `k`,
    `k+1`, ... suspending after each push, and reaches position 1 once the
    vector is `0..100`. A cancellation at the (n+1)-th suspension leaves
    the vector `0..k+n`.
  */
  lemma {:induction false} InnerFromPrefix(k: nat, d: Driver)
    requires k <= 101
    ensures InnerLoop(MyOtherState(0, Iota(k)), d) ==
      match d
      case Never => LoopEnd(Completed, MyOtherState(1, Iota(101)), Never)
      case After(n) =>
        if n < 101 - k then LoopEnd(Cancelled, MyOtherState(0, Iota(k + n + 1)), After(0))
        else LoopEnd(Completed, MyOtherState(1, Iota(101)), After(n - (101 - k)))
    decreases 101 - k
  {
    if k < 101 {
      var s := MyOtherState(0, Iota(k));
      assert s.a + [|s.a|] == Iota(k + 1);
      if !d.Fires() {
        InnerFromPrefix(k + 1, d.Passed());
      }
    }
  }

  /**
    Stage 1 of `some_function` from `(x, 2x)`: every tick keeps
    `valy == 2 * valx`; ticks up to 100 end in a suspension, tick 101 moves
    to position 2 at `(101, 202)` without one. A cancellation at the
    (n+1)-th suspension leaves `(x+n+1, 2(x+n+1))`.
  */
  lemma {:induction false} Stage1From(x: nat, d: Driver)
    requires x <= 100
    ensures OuterLoop(MyState(1, x, 2 * x), d) ==
      match d
      case Never => LoopEnd(Completed, MyState(2, 101, 202), Never)
      case After(n) =>
        if n < 100 - x then LoopEnd(Cancelled, MyState(1, x + n + 1, 2 * (x + n + 1)), After(0))
        else LoopEnd(Completed, MyState(2, 101, 202), After(n - (100 - x)))
    decreases 100 - x
  {
    if x < 100 && !d.Fires() {
      Stage1From(x + 1, d.Passed());
    }
  }

  // ----- whole runs -------------------------------------------------------

  /**
    A fresh run of `some_function` (neither record exists) passes 101
    suspension points in `some_function2` and 100 in its own stage 1, then
    completes at `(101, 202)` leaving the files as they were. Cancelled at
    the (n+1)-th suspension it leaves: for n <= 100, the nested record
    `0..n` and its own record at position 0; for 101 <= n <= 200, only its
    own record `(1, n-100, 2(n-100))`.
  */
  lemma FreshRun(f: Files, d: Driver)
    requires OuterName !in f && InnerName !in f
    ensures OuterTask(f, d) ==
      match d
      case Never => TaskEnd(Completed, MyState(2, 101, 202), Never, f)
      case After(n) =>
        if n <= 100 then
          TaskEnd(Cancelled, FreshOuter, After(0),
                  f[InnerName := EncodeMyOtherState(MyOtherState(0, Iota(n + 1)))][OuterName := EncodeMyState(FreshOuter)])
        else if n <= 200 then
          TaskEnd(Cancelled, MyState(1, n - 100, 2 * (n - 100)), After(0),
                  f[OuterName := EncodeMyState(MyState(1, n - 100, 2 * (n - 100)))])
        else TaskEnd(Completed, MyState(2, 101, 202), After(n - 201), f)
  {
    assert f - {OuterName} == f;
    assert f - {InnerName} == f;
    assert Iota(0) == [];
    InnerFromPrefix(0, d);
    var inner := InnerTask(f, d);
    if inner.exit == Completed {
      Stage1From(0, inner.rest);
    }
  }

  /** A run resumed from a stage-1 record `(x, 2x)` completes at `(101, 202)` and leaves no record. */
  lemma ResumeStage1(f: Files, x: nat, d: Driver)
    requires OuterName !in f && InnerName !in f
    // `d` stands for `Never`; it is a parameter only so that the solver does not
    // unroll `OuterLoop`/`InnerLoop` on literal arguments
    requires x <= 100 && d.Never?
    ensures OuterTask(f[OuterName := EncodeMyState(MyState(1, x, 2 * x))], d)
         == TaskEnd(Completed, MyState(2, 101, 202), d, f)
  {
    OuterLoadsRecord(f, MyState(1, x, 2 * x), d);
    Stage1From(x, d);
  }

  /**
    A run resumed after a cancellation inside `some_function2` (its record
    holds `0..k-1`, the outer record position 0) finishes the vector,
    completes at `(101, 202)` and leaves neither record.
  */
  lemma ResumeStageZero(f: Files, k: nat, d: Driver)
    requires OuterName !in f && InnerName !in f
    // `d` stands for `Never`; it is a parameter only so that the solver does not
    // unroll `OuterLoop`/`InnerLoop` on literal arguments
    requires k <= 101 && d.Never?
    ensures OuterTask(f[InnerName := EncodeMyOtherState(MyOtherState(0, Iota(k)))][OuterName := EncodeMyState(FreshOuter)], d)
         == TaskEnd(Completed, MyState(2, 101, 202), d, f)
  {
    NamesDiffer();
    var g1 := f[InnerName := EncodeMyOtherState(MyOtherState(0, Iota(k)))];
    OuterLoadsRecord(g1, FreshOuter, d);
    InnerResume(f, k, d);
    Stage1From(0, d);
  }

  /** `some_function2` resumed from the vector `0..k-1` completes with `0..100` and removes its record. */
  lemma InnerResume(f: Files, k: nat, d: Driver)
    requires InnerName !in f
    // `d` stands for `Never`; it is a parameter only so that the solver does not
    // unroll `OuterLoop`/`InnerLoop` on literal arguments
    requires k <= 101 && d.Never?
    ensures InnerTask(f[InnerName := EncodeMyOtherState(MyOtherState(0, Iota(k)))], d)
         == TaskEnd(Completed, MyOtherState(1, Iota(101)), d, f)
  {
    InnerLoadsRecord(f, MyOtherState(0, Iota(k)), d);
    InnerFromPrefix(k, d);
  }

  /** `some_function2` starts from whatever value its record holds, and deletes the record. */
  lemma InnerLoadsRecord(f: Files, s: MyOtherState, d: Driver)
    requires InnerName !in f
    ensures InnerTask(f[InnerName := EncodeMyOtherState(s)], d) == InnerFinish(InnerLoop(s, d), f)
  {
    MyOtherStateRoundTrip(s);
    assert f[InnerName := EncodeMyOtherState(s)] - {InnerName} == f;
  }

  /** `some_function` starts from whatever value its record holds, and deletes the record. */
  lemma OuterLoadsRecord(f: Files, s: MyState, d: Driver)
    requires OuterName !in f
    ensures OuterTask(f[OuterName := EncodeMyState(s)], d) == OuterResume(s, f, d)
  {
    MyStateRoundTrip(s);
    assert f[OuterName := EncodeMyState(s)] - {OuterName} == f;
  }

  /**
    The end-to-end guarantee for a fresh start: wherever the cancellation
    lands, the next uncancelled run picks up from the saved records,
    completes at `(101, 202)` and leaves the files as they were before the
    first run. The first run is cancelled exactly when the cancellation
    lands at one of the 201 suspension points.
  */
  lemma CancelThenResume(f: Files, n: nat, resumed: Driver)
    requires OuterName !in f && InnerName !in f
    // `resumed` stands for `Never`; it is a parameter only so that the solver does not
    // unroll `OuterLoop`/`InnerLoop` on literal arguments
    requires resumed.Never?
    ensures var first := OuterTask(f, After(n));
      && (first.exit == Cancelled <==> n <= 200)
      && (first.exit == Completed ==> first.files == f)
      && (first.exit == Cancelled ==>
            OuterTask(first.files, resumed) == TaskEnd(Completed, MyState(2, 101, 202), resumed, f))
  {
    FreshRun(f, After(n));
    var first := OuterTask(f, After(n));
    if n <= 100 {
      assert first.files
          == f[InnerName := EncodeMyOtherState(MyOtherState(0, Iota(n + 1)))][OuterName := EncodeMyState(FreshOuter)];
      ResumeStageZero(f, n + 1, resumed);
    } else if n <= 200 {
      assert first.files == f[OuterName := EncodeMyState(MyState(1, n - 100, 2 * (n - 100)))];
      ResumeStage1(f, n - 100, resumed);
    }
  }

  /**
    A record whose position is not 0, 1 or 2 makes the run panic; the
    finaliser writes the same value back, so every later run panics too.
  */
  lemma UndefinedPositionPanics(f: Files, d: Driver, d': Driver, s: MyState)
    requires OuterName in f && DecodeMyState(f[OuterName]) == Some(s)
    requires s.resumingPosition > 2
    ensures var r := OuterTask(f, d);
      && r == TaskEnd(Panicked, s, d, f[OuterName := EncodeMyState(s)])
      && OuterTask(r.files, d') == TaskEnd(Panicked, s, d', r.files)
  {
    var g := f[OuterName := EncodeMyState(s)];
    assert (f - {OuterName})[OuterName := EncodeMyState(s)] == g;
    MyStateRoundTrip(s);
    assert (g - {OuterName})[OuterName := EncodeMyState(s)] == g;
  }

  /**
    A record too short to decode makes the run panic, and the finaliser
    then overwrites it with the encoding of the default value: the next
    run does not fail again but starts afresh.
  */
  lemma CorruptRecordRestarts(f: Files, d: Driver)
    requires OuterName in f && |f[OuterName]| < 16
    requires InnerName !in f
    // `d` stands for `Never`; it is a parameter only so that the solver does not
    // unroll `OuterLoop`/`InnerLoop` on literal arguments
    requires d.Never?
    ensures var r := OuterTask(f, d);
      && r.exit == Panicked
      && r.files == f[OuterName := EncodeMyState(FreshOuter)]
      && OuterTask(r.files, d) == TaskEnd(Completed, MyState(2, 101, 202), d, f - {OuterName})
  {
    var g := f - {OuterName};
    assert f[OuterName := EncodeMyState(FreshOuter)] - {OuterName} == g;
    assert g[OuterName := EncodeMyState(FreshOuter)] == f[OuterName := EncodeMyState(FreshOuter)];
    MyStateRoundTrip(FreshOuter);
    NamesDiffer();
    assert OuterName !in g && InnerName !in g;
    FreshRun(g, d);
  }

  // ----- the start of a run, as the store's load leaves it ------------------

  /**
    How `some_function2` continues after its store's load: `loaded` is the
    value the load left and `f0` the files after it; `ok` is false when the
    record did not decode.
  */
  lemma InnerTaskStart(f: Files, d: Driver, ok: bool, loaded: MyOtherState, f0: Files)
    requires InnerName !in f ==> ok && loaded == FreshInner && f0 == f
    requires InnerName in f ==>
      match DecodeMyOtherState(f[InnerName])
      case None => !ok && loaded == FreshInner && f0 == f
      case Some(v) => ok && loaded == v && f0 == f - {InnerName}
    ensures !ok ==> InnerTask(f, d) == TaskEnd(Panicked, loaded, d, f0[InnerName := EncodeMyOtherState(loaded)])
    ensures ok ==> InnerTask(f, d) == InnerFinish(InnerLoop(loaded, d), f0)
  {
    if InnerName !in f {
      assert f - {InnerName} == f;
    }
  }

  /** How `some_function` continues after its store's load (see `InnerTaskStart`). */
  lemma OuterTaskStart(f: Files, d: Driver, ok: bool, loaded: MyState, f0: Files)
    requires OuterName !in f ==> ok && loaded == FreshOuter && f0 == f
    requires OuterName in f ==>
      match DecodeMyState(f[OuterName])
      case None => !ok && loaded == FreshOuter && f0 == f
      case Some(v) => ok && loaded == v && f0 == f - {OuterName}
    ensures !ok ==> OuterTask(f, d) == TaskEnd(Panicked, loaded, d, f0[OuterName := EncodeMyState(loaded)])
    ensures ok ==> OuterTask(f, d) == OuterResume(loaded, f0, d)
  {
    if OuterName !in f {
      assert f - {OuterName} == f;
    }
  }
}
