# async-suspend: a checkpoint store and two resumable loops, in Dafny

This project models the core of `async-suspend`, a small Rust program that
shows how a long-running asynchronous task can be cancelled at any of its
`sleep(..).await` points and later resumed where it stopped.

Two parts:

- **The checkpoint store** `State<T>` (src/state.rs), module
  `CheckpointStore`. A store holds a progress value `data`, a numeric `id`
  and a `completed` flag. `deserialize_data` loads the record file
  `state-<id>` if one exists and then deletes it. `serialize_data` writes
  the record, but only while `completed` is false. The `Drop` finaliser
  always calls `serialize_data`, so every way out of the task persists the
  progress unless the work finished. `State` is a class. The filesystem is
  a `Disk` object with a map from file names to bytes, shared by every
  store as the process's one filesystem is. The store works with any
  `Codec` (module `Encoding`), and its lifecycle properties rely only on
  the codec's round-trip law.
- **The step-indexed loops** `some_function` and `some_function2`
  (src/main.rs), modules `Progress` and `Tasks`. Each loop dispatches on
  the record's `resuming_position`. `some_function2` pushes `0, 1, ...`
  onto a vector until it holds 101 entries. `some_function` first runs
  `some_function2` (stage 0), then adds 1 to `valx` and 2 to `valy` per
  tick until both exceed 100 and 200 (stage 1), then completes (stage 2).
  - Module `Progress` gives the meaning of these loops as functions:
    `InnerLoop`/`OuterLoop` for one dispatch loop and
    `InnerTask`/`OuterTask` for a whole run against the file map. Its
    lemmas give closed forms and end-to-end properties.
  - Module `Tasks` holds the imperative code: the Rust functions as
    methods over `State` objects and a `Disk`, with `while` loops, proved
    equal to those functions.

Cancellation is a `Driver`: `Never`, or `After(n)`, which lets `n`
suspension points pass and cancels the task at the next one. One driver
spans the nested call, because `some_function2` runs inside the same task.
A run ends `Completed`, `Cancelled` or `Panicked`. A panic unwinds the
stack, so the store's finaliser runs on that path too.

The record codecs are concrete. They use the layout of bincode 1's default
configuration: a `usize` is 8 little-endian bytes, an `i32` is 4 bytes in
two's complement, and a `Vec` is an 8-byte length followed by its
elements. `MyState` takes 16 bytes. Decoding fails exactly when too few
bytes are present: for `MyOtherState`, when the position or the length
prefix is cut off or the prefix asks for more entries than the remaining
bytes hold. Decoding ignores trailing bytes, as `deserialize_from` does.

Some behaviour of the code, as modelled:

- The finaliser persists even a progress value that is still the default.
  After a cancelled run there is always a record, even when no work was
  done yet.
- A record that fails to decode makes `deserialize_data` panic before the
  record is deleted. The unwinding then drops the store, which still holds
  its default value, so the corrupt record is overwritten with the
  encoding of the default. The next run does not fail again: it silently
  starts afresh (`CorruptRecordRestarts`).
- A fresh run of `some_function` passes 101 suspension points inside
  `some_function2` before stage 1 starts. The run is cancelled for every
  cancellation point up to the 201st. Cancelled at the stage-1 sleep after
  tick N (1 <= N <= 100), it leaves the record `(1, N, 2N)`
  (`FreshRun`, `CancelThenResume`).
- `valx += 1` and `valy += 2` are `i32` additions. They are modelled as in
  a debug build: an overflow panics, after any earlier increment took
  effect. From any record the code itself writes, overflow cannot happen:
  across any sequence of runs and cancellations the record stays at
  position 0 or 1 with `valx <= 100` and `valy == 2 * valx`
  (`PersistedRecordsClosed`).

## Model

| member | source | states |
|---|---|---|
| CheckpointStore.State.constructor | src/state.rs:13-19 | A new store is not completed and holds the given id and value. Its file name is `FileName(id)`. The disk is not touched. |
| CheckpointStore.DecimalString | src/state.rs:22 | `{}` formatting of the id as decimal digits, most significant first. Definition, no contract; its properties are in `DecimalDigits` and `DecimalRoundTrip`. |
| CheckpointStore.FileName | src/state.rs:21-23 | `file_name`: `state-` followed by the decimal id. Definition, no contract; its properties are in `FileNameRoundTrip` and `FileNameInjective`. |
| CheckpointStore.FileNameRoundTrip | src/state.rs:21-23 | A record name is `state-` followed by digits, and parsing it gives back the id. So the name depends on the id alone and encodes all of it. |
| CheckpointStore.FileNameInjective | src/state.rs:21-23 | Two stores share a record file exactly when their ids are equal. |
| CheckpointStore.DecimalRoundTrip | src/state.rs:22 | Parsing the decimal formatting of `n` gives `n`. |
| CheckpointStore.DecimalDigits | src/state.rs:22 | The decimal formatting of any number is a non-empty string of digits. |
| CheckpointStore.State.SerializeData | src/state.rs:25-37 | When completed, the disk is unchanged. Otherwise the store's file is set to the encoding of `data`, replacing any earlier contents, and no other file changes. Neither `completed` nor `data` is written. |
| CheckpointStore.State.DeserializeData | src/state.rs:39-49 | With no record: nothing changes. With a record that decodes: `data` becomes the decoded value and the record is removed, nothing else changes. With a record that does not decode: the panic (`ok` false) leaves `data` and the disk as they were. `completed` is never written. |
| CheckpointStore.State.Drop | src/state.rs:52-56 | The finaliser has exactly the effect of `serialize_data`. |
| CheckpointStore.DropThenResume | src/state.rs:52-56 | For a codec with the round-trip law: dropping an incomplete store, then creating a store with the same id and loading, recovers exactly the dropped value, whatever the new default is. The record is gone afterwards. |
| CheckpointStore.CompletedThenRestart | src/state.rs:25-26 | Dropping a completed store adds no record. A new store with the same id then starts from its default, and the disk is as it was. |
| CheckpointStore.LoadTwice | src/state.rs:39-49 | After a successful load there is no record, and a second load changes neither the value nor the disk. The first load fails exactly when a record exists that does not decode. |
| Progress.OuterNameIs | src/main.rs:14-15 | The store of `some_function` (id 973298479) uses the file `state-973298479`. |
| Progress.InnerNameIs | src/main.rs:60-61 | The store of `some_function2` (id 160182641) uses the file `state-160182641`. |
| Progress.NamesDiffer | src/main.rs:14-15 | The two stores use different record files. |
| Progress.EncodeMyState | src/main.rs:9-13 | `bincode::serialize` of a `MyState` (src/state.rs:27): the position as 8 bytes, then `valx` and `valy` as 4 bytes each, 16 bytes in all. Its inverse is stated in `MyStateRoundTrip`. |
| Progress.DecodeMyState | src/main.rs:9-13 | Decoding a `MyState` record fails exactly when it holds fewer than 16 bytes. |
| Progress.MyStateRoundTrip | src/main.rs:9-13 | Decoding the encoding of any `MyState` gives it back. |
| Progress.EncodeMyOtherState | src/main.rs:56-59 | `bincode::serialize` of a `MyOtherState` (src/state.rs:27): the position as 8 bytes, then the vector's 8-byte length and 8 bytes per entry. Its inverse is stated in `MyOtherStateRoundTrip`. |
| Progress.DecodeMyOtherState | src/main.rs:56-59 | A `MyOtherState` record fails to decode exactly when it is shorter than 16 bytes or shorter than 16 bytes plus 8 per entry its length prefix announces. |
| Progress.TruncatedMyOtherStateFails | src/main.rs:56-59 | Every strict prefix of an encoded `MyOtherState` fails to decode, so a record cut short is a decode failure, never a shorter vector. |
| Encoding.DecodeElemsFails | src/state.rs:46 | Reading `n` consecutive `usize` values fails exactly when fewer than `8 * n` bytes remain. |
| Encoding.DecodeUsizes | src/state.rs:46 | Reading a length-prefixed `Vec<usize>` fails exactly when the 8-byte prefix is cut off or fewer than 8 bytes per announced entry follow it. |
| Progress.MyOtherStateRoundTrip | src/main.rs:56-59 | Decoding the encoding of any `MyOtherState` gives it back. |
| Progress.CodecsRoundTrip | src/state.rs:46 | Both record codecs obey the round-trip law that the store's lifecycle properties need. |
| Progress.Iota | src/main.rs:79-80 | The vector that the pushes of `i` build: its length is `k` and entry `j` is `j`. |
| Progress.InnerLoop | src/main.rs:72-91 | The vector only grows. The loop completes only at position 1, and from position 0 only with more than 100 entries. Cancellation happens only at position 0 and leaves 1 to 101 entries. The loop panics exactly when the position is above 1, with the record unchanged. The position never decreases. |
| Progress.InnerTask | src/main.rs:54-92 | The whole of `some_function2` on a file map: a record that does not decode panics and the default is persisted over it; otherwise the loop runs from the loaded value (or the default) with the record deleted, and `InnerFinish` applies the finaliser. Definition, no contract; its properties are in `InnerTaskRecord`, `InnerLoadsRecord`, `InnerResume` and `InnerTaskStart`, and `Tasks.SomeFunction2` is proved equal to it. |
| Progress.InnerFinish | src/state.rs:52-56 | The finaliser of `some_function2`'s store: the record is written with the last value unless the loop completed. Definition, no contract; its properties are in `InnerTaskRecord`. |
| Progress.InnerTaskRecord | src/main.rs:54-92 | Whatever the files and cancellation point, `some_function2` changes no file but its own record. It leaves that record exactly when it did not complete, and the record then encodes the last progress value. |
| Progress.OuterLoop | src/main.rs:27-51 | `valx` and `valy` never decrease. The loop completes only at position 2, and from position 1 only with `valx > 100 && valy > 200`. Cancellation happens only at position 1 with that condition false. Positions 1 and 2 only move forward. A position above 2 panics at once, with the record unchanged. |
| Progress.OuterTask | src/main.rs:7-52 | The whole of `some_function` on a file map: a record that does not decode panics and the default is persisted over it; otherwise `OuterResume` runs from the loaded value (or the default) with the record deleted. Definition, no contract; its properties are in `OuterTaskRecord`, `FreshRun`, `CancelThenResume`, `UndefinedPositionPanics` and `CorruptRecordRestarts`, and `Tasks.SomeFunction` is proved equal to it. |
| Progress.OuterResume | src/main.rs:27-51 | `some_function` after its load: at position 0, `some_function2` runs to its end; if it did not complete, this run ends the same way with the loaded value persisted; otherwise position 1 is set without a suspension and `OuterLoop` runs. Other positions go straight to `OuterLoop`. Definition, no contract; its properties are in `OuterTaskRecord`, `ResumeStageZero` and `ResumeStage1`, and `Tasks.OuterDispatch` is proved equal to it. |
| Progress.OuterFinish | src/state.rs:52-56 | The finaliser of `some_function`'s store: the record is written with the last value unless the loop completed. Definition, no contract; its properties are in `OuterTaskRecord`. |
| Progress.PersistedRecordsClosed | src/main.rs:27-51 | If the own record, when it decodes, holds a stage-0 or stage-1 value with `valx <= 100` and `valy == 2 * valx`, then so does the record after a run, under every cancellation point. Such a run panics only on a corrupt own record or inside `some_function2`; the `i32` additions never overflow. |
| Progress.ResumePersistable | src/main.rs:27-51 | From such a value, `some_function` after its load leaves its record within that set, and panics only when `some_function2` does. |
| Progress.Stage1Persistable | src/main.rs:33-42 | Stage 1 from `(1, x, 2x)` with `x <= 100` never panics and leaves a record within that set. |
| Progress.OuterTaskRecord | src/main.rs:7-52 | Whatever the files and cancellation point, `some_function` changes no file but the two records. It leaves its own record exactly when it did not complete, and the record then encodes the last progress value. |
| Progress.InnerFromPrefix | src/main.rs:70-82 | From the vector `0..k-1`, each tick pushes `i` (equal to the length), so `a[j] == j` throughout. Uncancelled, the loop completes with `0..100`. Cancelled at the (n+1)-th sleep, it leaves `0..k+n`. It uses exactly `101-k` sleeps. |
| Progress.Stage1From | src/main.rs:33-42 | From `(1, x, 2x)`, every tick keeps `valy == 2*valx`. Position 2 is reached at `(101, 202)` on tick 101, with no sleep on that tick. Cancelled at the (n+1)-th sleep, the loop leaves `(1, x+n+1, 2(x+n+1))`. |
| Progress.FreshRun | src/main.rs:22-42 | Closed form of a fresh run for every cancellation point. Uncancelled, it completes at `(101, 202)` and leaves the files as they were. Cancelled at sleep n+1 with n <= 100, it leaves the nested record `0..n` and the outer record at position 0. With n <= 200, it leaves only the outer record `(1, n-100, 2(n-100))`. Otherwise it completes. |
| Progress.ResumeStage1 | src/main.rs:33-42 | A run resumed from a record `(1, x, 2x)` with x <= 100 completes at `(101, 202)` and leaves no record. |
| Progress.ResumeStageZero | src/main.rs:29-32 | A run resumed after a cancellation inside `some_function2` finishes the vector, then goes on to stage 1 and completes at `(101, 202)`, leaving neither record. |
| Progress.InnerResume | src/main.rs:67-82 | `some_function2` resumed from the vector `0..k-1` completes with `0..100` and removes its record. |
| Progress.InnerLoadsRecord | src/main.rs:67 | `some_function2` starts from whatever value its record holds, with the record removed. |
| Progress.OuterLoadsRecord | src/main.rs:22 | `some_function` starts from whatever value its record holds, with the record removed. |
| Progress.CancelThenResume | src/main.rs:29-41 | A fresh run is cancelled exactly when the cancellation lands at one of its 201 sleeps. If it completes, the files are unchanged. If it is cancelled, the next uncancelled run completes at `(101, 202)` and leaves the files as they were before the first run. |
| Progress.UndefinedPositionPanics | src/main.rs:47-49 | A record whose position is not 0, 1 or 2 makes the run panic. The finaliser writes the same value back, so every later run panics as well. |
| Progress.CorruptRecordRestarts | src/main.rs:22 | A record too short to decode makes the run panic, and the finaliser replaces it with the encoding of the default value. The next uncancelled run then starts afresh, completes at `(101, 202)` and removes the record. |
| Progress.InnerTaskStart | src/main.rs:60-67 | After the load, `some_function2` either panics with the loaded value persisted again, or runs its loop from the loaded value on the files the load left. |
| Progress.OuterTaskStart | src/main.rs:14-22 | After the load, `some_function` either panics with the loaded value persisted again, or resumes from the loaded value on the files the load left. |
| Tasks.SomeFunction2 | src/main.rs:54-92 | Creating the store, loading, running the loop and dropping the store on every way out ends exactly as `InnerTask` says: same exit, same remaining driver, same files. |
| Tasks.InnerDispatch | src/main.rs:70-91 | The `loop`/`match` with the local `i` ends exactly as `InnerLoop` says from the loaded record. The store is marked completed exactly when the loop completes. |
| Tasks.SomeFunction | src/main.rs:7-52 | Creating the store, loading, running the loop (with the nested call) and dropping the store on every way out ends exactly as `OuterTask` says: same exit, same remaining driver, same files. |
| Tasks.OuterDispatch | src/main.rs:27-51 | The `loop`/`match` ends exactly as `OuterResume` says from the loaded record and files, including the nested run of `some_function2` in stage 0. The store is marked completed exactly when the loop completes. |

## Left out

- The tokio runtime, `tokio::task::spawn`, `AbortHandle`/`Abortable`, the sleep durations and the two-second timer in `main` (src/main.rs:94-102) are left out. They are concurrency and timing. A run is a function of a `Driver` that says at which suspension point the cancellation lands.
- `println!` output is left out.
- Filesystem calls (`OpenOptions`, `Path::exists`, `write_all`, `fs::remove_file`) become updates of the `Disk` map. Their I/O errors, which the source turns into panics through `unwrap`, are not modelled: every filesystem call succeeds. A crash between truncating and writing a record is not modelled either: a write replaces the record whole.
- bincode's own code is not part of this model. The record codecs follow its default fixed-width little-endian layout, and the store itself is proved for any codec with the round-trip law.
- The `usize` id is a `nat`. `file_name` is computed once, in the constructor, because `id` never changes.
- `i32` arithmetic follows a debug build, where overflow panics. The wrap-around of a release build is not modelled.
- The disjoint `&mut` borrows of `valx`, `valy` and `a` (src/main.rs:23-24, src/main.rs:68) are field updates of `state.data`.
- The keyed-resource store variant and its explicit record format are not part of this model. Their code is not among the modelled files.
- Concurrent use of one record by two stores is left out. The source never has two live stores for the same id.
