/**
  The checkpoint store of src/state.rs: a progress value bound to a numeric
  identity and a completion flag, persisted to a file named after the
  identity whenever the store is dropped before the work completed.

  The filesystem is a `Disk` object holding a map from file names to file
  contents; every store holds a reference to the one disk, as every Rust
  store reaches the one process-wide filesystem. Encoding is a `Codec`
  chosen by the caller (see module Encoding).
*/
module CheckpointStore {
  import opened Wrappers
  import opened Encoding

  type Files = map<string, Bytes>

  /** The filesystem: file name to file contents. */
  class Disk {
    var files: Files

    constructor (files: Files)
      ensures this.files == files
    {
      this.files := files;
    }
  }

  // ----- file names -------------------------------------------------------

  /** The character of the decimal digit `k`. */
  function DigitChar(k: nat): char
    requires k < 10
  {
    ('0' as int + k) as char
  }

  /** The decimal representation of `n`, as Rust's `{}` formats a `usize`. */
  function DecimalString(n: nat): string
  {
    if n < 10 then [DigitChar(n)] else DecimalString(n / 10) + [DigitChar(n % 10)]
  }

  function DigitValue(c: char): nat {
    if '0' <= c <= '9' then c as int - '0' as int else 0
  }

  /** Reads a string of decimal digits back as a number. */
  function ParseDecimal(s: string): nat {
    if s == [] then 0 else 10 * ParseDecimal(s[..|s| - 1]) + DigitValue(s[|s| - 1])
  }

  /** A decimal representation is a non-empty string of digits. */
  lemma {:induction false} DecimalDigits(n: nat)
    ensures |DecimalString(n)| >= 1
    ensures forall k :: 0 <= k < |DecimalString(n)| ==> '0' <= DecimalString(n)[k] <= '9'
  {
    if n >= 10 {
      DecimalDigits(n / 10);
    }
  }

  lemma {:induction false} DecimalRoundTrip(n: nat)
    ensures ParseDecimal(DecimalString(n)) == n
  {
    var s := DecimalString(n);
    if n >= 10 {
      assert s[..|s| - 1] == DecimalString(n / 10);
      DecimalRoundTrip(n / 10);
    }
  }

  const Prefix: string := "state-"

  /** The name of the file that holds the record of store `id` (state.rs `file_name`). */
  function FileName(id: nat): string
  {
    Prefix + DecimalString(id)
  }

  /** Recovers the identity from a record's file name; `None` for any other name. */
  function ParseFileName(name: string): (r: Option<nat>)
  {
    if |name| > |Prefix| && name[..|Prefix|] == Prefix
       && forall k :: |Prefix| <= k < |name| ==> '0' <= name[k] <= '9'
    then Some(ParseDecimal(name[|Prefix|..]))
    else None
  }

  /** Every record name is "state-" followed by the identity's digits, and reads back as it. */
  lemma FileNameRoundTrip(id: nat)
    ensures |FileName(id)| > |Prefix| && FileName(id)[..|Prefix|] == Prefix
    ensures ParseFileName(FileName(id)) == Some(id)
  {
    DecimalDigits(id);
    assert FileName(id)[|Prefix|..] == DecimalString(id);
    DecimalRoundTrip(id);
  }

  /** Distinct identities never share a record. */
  lemma FileNameInjective(id1: nat, id2: nat)
    ensures FileName(id1) == FileName(id2) <==> id1 == id2
  {
    FileNameRoundTrip(id1);
    FileNameRoundTrip(id2);
  }

  // ----- the store --------------------------------------------------------

  /** State<T> of state.rs: `completed`, `id`, `data`, and the means to persist `data`. */
  class State<T> {
    var completed: bool
    const id: nat
    /** The record's file name, `file_name()` of the source. */
    const name: string
    var data: T
    const codec: Codec<T>
    const disk: Disk

    /** `State::new`: not completed, holding `data`; the disk is not touched. */
    constructor (id: nat, data: T, codec: Codec<T>, disk: Disk)
      ensures !completed && this.id == id && this.data == data
      ensures name == FileName(id)
      ensures this.codec == codec && this.disk == disk
      ensures disk.files == old(disk.files)
    {
      this.completed := false;
      this.id := id;
      this.name := FileName(id);
      this.data := data;
      this.codec := codec;
      this.disk := disk;
    }

    /**
      `serialize_data`: while not completed, create or truncate the record
      and write the encoded value into it; once completed, do nothing.
    */
    method SerializeData()
      modifies disk
      ensures completed ==> disk.files == old(disk.files)
      ensures !completed ==> disk.files == old(disk.files)[name := codec.encode(data)]
    {
      if !completed {
        disk.files := disk.files[name := codec.encode(data)];
      }
    }

    /**
      `deserialize_data`: if the record exists, decode it into `data` and
      delete it. `ok` is false when the record does not decode: the source
      panics there, before deleting the record and with `data` unchanged.
      `completed` is never written.
    */
    method DeserializeData() returns (ok: bool)
      modifies this`data, disk
      ensures completed == old(completed)
      ensures name !in old(disk.files) ==>
                ok && data == old(data) && disk.files == old(disk.files)
      ensures name in old(disk.files) ==>
                match codec.decode(old(disk.files)[name])
                case None => !ok && data == old(data) && disk.files == old(disk.files)
                case Some(v) => ok && data == v && disk.files == old(disk.files) - {name}
    {
      ok := true;
      if name in disk.files {
        var decoded := codec.decode(disk.files[name]);
        if decoded.None? {
          ok := false;
          return;
        }
        data := decoded.value;
        disk.files := disk.files - {name};
      }
    }

    /** The `Drop` implementation: the finaliser always runs `serialize_data`. */
    method Drop()
      modifies disk
      ensures completed ==> disk.files == old(disk.files)
      ensures !completed ==> disk.files == old(disk.files)[name := codec.encode(data)]
    {
      SerializeData();
    }
  }

  // ----- the store's lifecycle, end to end ----------------------------------

  /**
    A store dropped before completion leaves a record from which a new store
    with the same identity recovers exactly the dropped value, whatever
    default it was created with; the load removes the record again.
  */
  method DropThenResume<T(!new)>(initial: Files, id: nat, v: T, default: T, codec: Codec<T>)
    returns (recovered: T, left: Files)
    requires RoundTrips(codec)
    ensures recovered == v
    ensures left == initial - {FileName(id)}
  {
    var disk := new Disk(initial);
    var first := new State(id, v, codec, disk);
    first.Drop();
    var second := new State(id, default, codec, disk);
    var ok := second.DeserializeData();
    recovered, left := second.data, disk.files;
  }

  /**
    A store marked completed adds no record when dropped, so a new store
    with the same identity starts from its default.
  */
  method CompletedThenRestart<T>(initial: Files, id: nat, v: T, default: T, codec: Codec<T>)
    returns (restarted: T, left: Files)
    requires FileName(id) !in initial
    ensures restarted == default
    ensures left == initial
  {
    var disk := new Disk(initial);
    var first := new State(id, v, codec, disk);
    first.completed := true;
    first.Drop();
    var second := new State(id, default, codec, disk);
    var ok := second.DeserializeData();
    restarted, left := second.data, disk.files;
  }

  /**
    Loading twice in a row acts like loading once: after a successful first
    load there is no record, so the second changes neither the value nor
    the disk.
  */
  method LoadTwice<T>(initial: Files, id: nat, default: T, codec: Codec<T>)
    returns (ok1: bool, ok2: bool, after1: T, after2: T, files1: Files, files2: Files)
    ensures ok1 ==> ok2 && after2 == after1 && files2 == files1
    ensures ok1 ==> FileName(id) !in files1
    ensures !ok1 <==> FileName(id) in initial && codec.decode(initial[FileName(id)]).None?
  {
    var disk := new Disk(initial);
    var store := new State(id, default, codec, disk);
    ok1 := store.DeserializeData();
    after1, files1 := store.data, disk.files;
    ok2 := store.DeserializeData();
    after2, files2 := store.data, disk.files;
  }
}
