/**
  The two resumable loops of src/main.rs as imperative code over a
  checkpoint store: `SomeFunction2` is `some_function2`, `SomeFunction` is
  `some_function`. Each creates its store, loads it, dispatches on the
  resuming position, and runs the store's finaliser on every way out:
  normal completion, cancellation at a suspension point, or a panic.
  Each is proved to act on the disk exactly as the corresponding whole-run
  function of module Progress says.
*/
module Tasks {
  import opened Encoding
  import opened CheckpointStore
  import opened Progress

  /** `some_function2` on `disk`, with cancellation decided by `d`. */
  method SomeFunction2(disk: Disk, d: Driver) returns (exit: Exit, rest: Driver)
    modifies disk
    ensures var r := InnerTask(old(disk.files), d);
      exit == r.exit && rest == r.rest && disk.files == r.files
  {
    var state := new State(InnerId, FreshInner, InnerCodec, disk);
    InnerNameIs();
    var ok := state.DeserializeData();
    InnerTaskStart(old(disk.files), d, ok, state.data, disk.files);
    ghost var goal := InnerTask(old(disk.files), d);
    if !ok {
      // the decode panicked
      exit, rest := Panicked, d;
    } else {
      exit, rest := InnerDispatch(state, d);
    }
    assert goal == InnerFinish(LoopEnd(exit, state.data, rest), disk.files);
    // every way out of the function, the panic's unwinding included, drops the store
    state.Drop();
  }

  /**
    The dispatch loop of `some_function2` on its loaded store, from the
    local `i` set to the vector's length up to the loop's exit. The store
    is marked completed exactly when the loop completes.
  */
  method InnerDispatch(state: State<MyOtherState>, d: Driver) returns (exit: Exit, rest: Driver)
    requires !state.completed
    modifies state`data, state`completed
    ensures LoopEnd(exit, state.data, rest) == InnerLoop(old(state.data), d)
    ensures state.completed <==> exit == Completed
  {
    var i: U64 := |state.data.a|;
    exit, rest := Completed, d;
    while true
      invariant !state.completed && exit == Completed && i == |state.data.a|
      invariant InnerLoop(state.data, rest) == InnerLoop(old(state.data), d)
      decreases InnerMeasure(state.data)
    {
      match state.data.resumingPosition
      case 0 =>
        if |state.data.a| > 100 {
          state.data := state.data.(resumingPosition := 1);
        } else {
          state.data := state.data.(a := state.data.a + [i]);
          i := i + 1;
          // suspension point: the sleep
          if rest.Fires() {
            exit := Cancelled;
            break;
          }
          rest := rest.Passed();
        }
      case 1 =>
        state.completed := true;
        break;
      case _ =>
        // "undefined state"
        exit := Panicked;
        break;
    }
  }

  /** `some_function` on `disk`, with cancellation decided by `d`. */
  method SomeFunction(disk: Disk, d: Driver) returns (exit: Exit, rest: Driver)
    modifies disk
    ensures var r := OuterTask(old(disk.files), d);
      exit == r.exit && rest == r.rest && disk.files == r.files
  {
    var state := new State(OuterId, FreshOuter, OuterCodec, disk);
    OuterNameIs();
    var ok := state.DeserializeData();
    OuterTaskStart(old(disk.files), d, ok, state.data, disk.files);
    ghost var goal := OuterTask(old(disk.files), d);
    if !ok {
      // the decode panicked
      exit, rest := Panicked, d;
    } else {
      exit, rest := OuterDispatch(state, d);
    }
    assert goal == OuterFinish(LoopEnd(exit, state.data, rest), disk.files);
    // every way out of the function, the panic's unwinding included, drops the store
    state.Drop();
  }

  /**
    The dispatch loop of `some_function` on its loaded store, up to the
    loop's exit. Stage 0 runs `some_function2` on the same disk; if that
    does not complete, neither does this loop, with the same exit. The
    store is marked completed exactly when the loop completes.
  */
  method OuterDispatch(state: State<MyState>, d: Driver) returns (exit: Exit, rest: Driver)
    requires !state.completed
    modifies state`data, state`completed, state.disk
    ensures OuterFinish(LoopEnd(exit, state.data, rest), state.disk.files)
         == OuterResume(old(state.data), old(state.disk.files), d)
    ensures state.completed <==> exit == Completed
  {
    ghost var s0, f0 := state.data, state.disk.files;
    exit, rest := Completed, d;
    while true
      invariant !state.completed && exit == Completed
      invariant state.data.resumingPosition == 0 ==> state.data == s0 && rest == d && state.disk.files == f0
      invariant state.data.resumingPosition != 0 ==>
        OuterResume(s0, f0, d) == OuterFinish(OuterLoop(state.data, rest), state.disk.files)
      decreases OuterMeasure(state.data)
    {
      match state.data.resumingPosition
      case 0 =>
        exit, rest := SomeFunction2(state.disk, rest);
        if exit != Completed {
          break;
        }
        state.data := state.data.(resumingPosition := 1);
      case 1 =>
        if state.data.valx == I32Max {
          // `*valx += 1` overflows
          exit := Panicked;
          break;
        }
        state.data := state.data.(valx := state.data.valx + 1);
        if state.data.valy > I32Max - 2 {
          // `*valy += 2` overflows
          exit := Panicked;
          break;
        }
        state.data := state.data.(valy := state.data.valy + 2);
        if state.data.valx > 100 && state.data.valy > 200 {
          state.data := state.data.(resumingPosition := 2);
        } else {
          // suspension point: the sleep
          if rest.Fires() {
            exit := Cancelled;
            break;
          }
          rest := rest.Passed();
        }
      case 2 =>
        state.completed := true;
        break;
      case _ =>
        exit := Panicked;
        break;
    }
  }
}
