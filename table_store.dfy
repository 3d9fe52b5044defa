/**
 * The table-storage engine (src/lib.rs). Each table is one file under
 * `./db` holding a JSON envelope `Data<T>`; the filesystem is modelled by
 * the class `Db`, the JSON library by a `Codec` that is assumed to round-trip.
 */
module TableStore {
  import opened Wrappers
  import opened Decimal
  import opened Errors

  /** The envelope stored in a table file: its name, the next id to hand out, and the records by id. */
  datatype Data<T> = Data(table: string, nextId: string, records: map<string, T>)

  /** `io::Result<()>`. */
  datatype IoResult = Ok | Err(error: IoError)

  /** What `File::create` and `fs::remove_file` report for a path that does not exist (ENOENT). */
  const NotFoundError: IoError :=
    IoError(NotFound, "No such file or directory (os error 2)", "entity not found")

  /** `serde_json::to_string` and `serde_json::from_str` at the envelope type. */
  datatype Codec<!T> = Codec(encode: Data<T> -> string, decode: string -> Option<Data<T>>)

  /** The JSON library reads back every envelope it writes. */
  ghost predicate RoundTrips<T(!new)>(c: Codec<T>) {
    forall d :: c.decode(c.encode(d)) == Some(d)
  }

  /** `create_base_data`: a fresh envelope whose one record `t` sits under id "0". */
  function BaseData<T>(table: string, t: T): (d: Data<T>)
    ensures d.table == table && d.nextId == "1"
    ensures d.records.Keys == {"0"} && d.records["0"] == t
  {
    Data(table, "1", map["0" := t])
  }

  /** `next_id` parses as an `i32` that can still be incremented without overflow. */
  predicate CanAppend<T>(d: Data<T>) {
    ParseI32(d.nextId).Some? && ParseI32(d.nextId).value < I32Max
  }

  /**
   * The envelope `append_records` writes: `t` inserted under the current
   * counter `n` (overwriting a record already there), and the counter set
   * to `n + 1`.
   */
  function Appended<T>(d: Data<T>, t: T): (r: Data<T>)
    requires CanAppend(d)
    ensures var n := ParseI32(d.nextId).value;
      && r.table == d.table
      && r.nextId == IntToString(n + 1)
      && ParseI32(r.nextId) == Some(n + 1)
      && r.records.Keys == d.records.Keys + {IntToString(n)}
      && r.records[IntToString(n)] == t
      && forall k :: k in d.records && k != IntToString(n) ==> r.records[k] == d.records[k]
  {
    var n := ParseI32(d.nextId).value;
    ParseRoundTrip(n + 1);
    d.(records := d.records[IntToString(n) := t], nextId := IntToString(n + 1))
  }

  /** Every record id parses to a number strictly below the parsed `next_id`. */
  ghost predicate Counted<T>(d: Data<T>) {
    && ParseI32(d.nextId).Some?
    && forall k :: k in d.records ==>
         ParseI32(k).Some? && ParseI32(k).value < ParseI32(d.nextId).value
  }

  /** A fresh envelope satisfies the counter invariant. */
  lemma BaseDataCounted<T>(table: string, t: T)
    ensures Counted(BaseData(table, t))
    ensures ParseI32(BaseData(table, t).nextId) == Some(1)
  {
  }

  /**
   * Appending keeps the counter invariant, and never reuses an id: the new
   * id was not in use, so no record is overwritten.
   */
  lemma AppendedCounted<T>(d: Data<T>, t: T)
    requires Counted(d) && CanAppend(d)
    ensures Counted(Appended(d, t))
    ensures IntToString(ParseI32(d.nextId).value) !in d.records
  {
    ParseRoundTrip(ParseI32(d.nextId).value);
  }

  /** The ids "0" to `n - 1`. */
  ghost function Ids(n: nat): set<string> {
    set i | 0 <= i < n :: NatToString(i)
  }

  lemma IdsStep(n: nat)
    ensures Ids(n + 1) == Ids(n) + {NatToString(n)}
  {
  }

  /** Records numbered by position: `rs[i]` under the id `i`. */
  function Numbered<T>(rs: seq<T>): map<string, T>
  {
    if rs == [] then map[]
    else Numbered(rs[..|rs| - 1])[NatToString(|rs| - 1) := rs[|rs| - 1]]
  }

  /** A numbering of `n` records uses exactly the ids "0" to `n - 1`. */
  lemma {:induction false} NumberedKeys<T>(rs: seq<T>)
    ensures Numbered(rs).Keys == Ids(|rs|)
  {
    if rs != [] {
      NumberedKeys(rs[..|rs| - 1]);
      IdsStep(|rs| - 1);
    }
  }

  /** The id `i` of a numbering holds the record at position `i`. */
  lemma {:induction false} NumberedAt<T>(rs: seq<T>, i: nat)
    requires i < |rs|
    ensures NatToString(i) in Numbered(rs) && Numbered(rs)[NatToString(i)] == rs[i]
  {
    var n := |rs| - 1;
    if i < n {
      NumberedAt(rs[..n], i);
      if NatToString(i) == NatToString(n) {
        NatToStringInjective(i, n);
      }
    }
  }

  /**
   * A table created with the seed record `rs[0]` and then given the rest
   * of `rs` by successive appends: its counter is `|rs|` and it holds the
   * ids "0" to `|rs| - 1`, each with the record of that step.
   */
  function Appends<T>(table: string, rs: seq<T>): (d: Data<T>)
    requires 0 < |rs| <= I32Max
    ensures d.table == table && d.nextId == NatToString(|rs|)
    ensures d.records == Numbered(rs)
  {
    if |rs| == 1 then
      assert Numbered(rs) == Numbered(rs[..0])[NatToString(0) := rs[0]];
      BaseData(table, rs[0])
    else
      var n := |rs| - 1;
      ParseRoundTrip(n);
      ParseRoundTrip(n + 1);
      Appended(Appends(table, rs[..n]), rs[n])
  }

  /** One more append extends the run of appends by one step. */
  lemma AppendsStep<T>(table: string, rs: seq<T>, i: nat)
    requires 0 < i < |rs| <= I32Max
    ensures CanAppend(Appends(table, rs[..i]))
    ensures Appends(table, rs[..i + 1]) == Appended(Appends(table, rs[..i]), rs[i])
  {
    ParseRoundTrip(i);
    assert rs[..i + 1][..i] == rs[..i];
  }

  /**
   * The `./db` directory and the table files in it. Every table name is
   * taken to be a plain file name inside the directory.
   */
  class Db<T(!new)> {
    var dirExists: bool
    var files: map<string, Data<T>>
    const codec: Codec<T>

    ghost predicate Valid()
      reads this
    {
      && RoundTrips(codec)
      && (!dirExists ==> files == map[])
    }

    /** Every stored envelope keeps the counter invariant. */
    ghost predicate AllCounted()
      reads this
    {
      forall name :: name in files ==> Counted(files[name])
    }

    constructor (codec: Codec<T>, dirExists: bool, files: map<string, Data<T>>)
      requires RoundTrips(codec)
      requires !dirExists ==> files == map[]
      ensures Valid()
      ensures this.codec == codec && this.dirExists == dirExists && this.files == files
    {
      this.codec := codec;
      this.dirExists := dirExists;
      this.files := files;
    }

    /** `create_db_dir`: creates `./db` unless it is already there. */
    method CreateDbDir() returns (r: IoResult)
      requires Valid()
      modifies this
      ensures Valid() && r == Ok
      ensures dirExists && files == old(files)
      ensures old(dirExists) ==> unchanged(this)
    {
      if dirExists {
        return Ok;
      }
      dirExists := true;
      r := Ok;
    }

    /**
     * `upgrade_table`: serialises `d` and writes it over the file `table`,
     * which fails when the directory is missing.
     */
    method UpgradeTable(table: string, d: Data<T>) returns (r: IoResult)
      requires Valid()
      modifies this
      ensures Valid() && dirExists == old(dirExists)
      ensures r == (if dirExists then Ok else Err(NotFoundError))
      ensures files == if dirExists then old(files)[table := d] else old(files)
    {
      if !dirExists {
        return Err(NotFoundError);
      }
      files := files[table := d];
      r := Ok;
    }

    /**
     * `update_table`: a destructive reset of `table` to a fresh envelope,
     * whatever it held before; records and counter are lost.
     */
    method UpdateTable(table: string, t: T) returns (r: IoResult)
      requires Valid()
      modifies this
      ensures Valid() && dirExists == old(dirExists)
      ensures r == (if dirExists then Ok else Err(NotFoundError))
      ensures files == if dirExists then old(files)[table := BaseData(table, t)] else old(files)
      ensures old(AllCounted()) ==> AllCounted()
    {
      r := UpgradeTable(table, BaseData(table, t));
      BaseDataCounted(table, t);
    }

    /**
     * `create_table`: makes the directory, then writes a fresh envelope
     * only if no file `table` exists; an existing table is left as it is.
     */
    method CreateTable(table: string, t: T) returns (r: IoResult)
      requires Valid()
      modifies this
      ensures Valid() && r == Ok && dirExists
      ensures table in old(files) ==> files == old(files)
      ensures table !in old(files) ==> files == old(files)[table := BaseData(table, t)]
      ensures old(AllCounted()) ==> AllCounted()
    {
      r := CreateDbDir();
      var d := BaseData(table, t);
      if table in files {
        return Ok;
      }
      r := UpgradeTable(table, d);
      BaseDataCounted(table, t);
    }

    /**
     * `read_table`: the file's text. Opening a missing file panics. The
     * compact JSON holds no line break, so joining its lines gives it back whole.
     */
    method ReadTable(table: string) returns (s: string)
      requires Valid()
      requires table in files
      ensures codec.decode(s) == Some(files[table])
      ensures s == codec.encode(files[table])
    {
      s := codec.encode(files[table]);
    }

    /** `read_records`: the records of the table "test", whatever else is stored. */
    method ReadRecords() returns (m: map<string, T>)
      requires Valid()
      requires "test" in files
      ensures m == files["test"].records
    {
      var s := ReadTable("test");
      var data := codec.decode(s).value;
      m := data.records;
    }

    /**
     * `append_records`: reads the envelope of the table "test" (not of
     * `table`), stores `t` under its counter, advances the counter, and
     * writes the result to the file `table`. A missing "test" file, an
     * unparsable counter, or a counter at `i32::MAX` panics.
     */
    method AppendRecords(table: string, t: T) returns (r: IoResult)
      requires Valid()
      requires "test" in files
      requires CanAppend(files["test"])
      modifies this
      ensures Valid() && r == Ok && dirExists == old(dirExists)
      ensures files == old(files)[table := Appended(old(files)["test"], t)]
      ensures old(AllCounted()) ==> AllCounted()
    {
      var s := ReadTable("test");
      var data := codec.decode(s).value;
      var current := ParseI32(data.nextId).value;
      var newId := current + 1;
      data := data.(records := data.records[IntToString(current) := t]);
      data := data.(nextId := IntToString(newId));
      ghost var source := old(files)["test"];
      assert data == Appended(source, t);
      if Counted(source) {
        AppendedCounted(source, t);
      }
      r := UpgradeTable(table, data);
    }

    /** `drop_table`: removes the file `table`; a missing file is an error. */
    method DropTable(table: string) returns (r: IoResult)
      requires Valid()
      modifies this
      ensures Valid() && dirExists == old(dirExists)
      ensures table in old(files) ==> r == Ok && files == old(files) - {table}
      ensures table !in old(files) ==> r == Err(NotFoundError) && files == old(files)
      ensures old(AllCounted()) ==> AllCounted()
    {
      if table !in files {
        return Err(NotFoundError);
      }
      files := files - {table};
      r := Ok;
    }
  }

  /** The numbering of a seed followed by `rs`: the seed under "0", `rs[i]` under `i + 1`. */
  lemma SeededRecords<T>(t0: T, rs: seq<T>)
    ensures Numbered([t0] + rs).Keys == Ids(|rs| + 1)
    ensures "0" in Numbered([t0] + rs) && Numbered([t0] + rs)["0"] == t0
    ensures forall i :: 0 <= i < |rs| ==>
      NatToString(i + 1) in Numbered([t0] + rs) && Numbered([t0] + rs)[NatToString(i + 1)] == rs[i]
  {
    var all := [t0] + rs;
    NumberedKeys(all);
    NumberedAt(all, 0);
    forall i | 0 <= i < |rs|
      ensures NatToString(i + 1) in Numbered(all) && Numbered(all)[NatToString(i + 1)] == rs[i]
    {
      NumberedAt(all, i + 1);
    }
  }

  /** Rewriting an entry and then removing its key is the same as removing the key. */
  lemma UpdateThenRemove<K, V>(m: map<K, V>, k: K, v: V)
    ensures m[k := v] - {k} == m - {k}
  {
  }

  /** Removing a key and putting its entry back gives the map again. */
  lemma RemoveThenRestore<K, V>(m: map<K, V>, k: K)
    requires k in m
    ensures (m - {k})[k := m[k]] == m
  {
  }

  /**
   * The append scenario of the crate's test: on a store where "test" is
   * absent (for instance just dropped), create "test" with a seed record,
   * append each of `rs` to "test", then read the table back. No other
   * table is touched.
   */
  method AppendScenario<T(!new)>(db: Db<T>, t0: T, rs: seq<T>)
    returns (stored: Data<T>, text: string)
    requires db.Valid()
    requires "test" !in db.files
    requires |rs| < I32Max
    modifies db
    ensures db.Valid() && db.dirExists
    ensures db.files == old(db.files)["test" := Appends("test", [t0] + rs)]
    ensures stored == db.files["test"]
    ensures stored.table == "test" && stored.nextId == NatToString(|rs| + 1)
    ensures stored.records.Keys == Ids(|rs| + 1)
    ensures "0" in stored.records && stored.records["0"] == t0
    ensures forall i :: 0 <= i < |rs| ==>
      NatToString(i + 1) in stored.records && stored.records[NatToString(i + 1)] == rs[i]
    ensures db.codec.decode(text) == Some(stored)
  {
    var all := [t0] + rs;
    ghost var before := db.files;
    var _ := db.CreateTable("test", t0);
    assert all[..1] == [t0];
    var i := 1;
    while i < |all|
      invariant 1 <= i <= |all|
      invariant db.Valid() && db.dirExists
      invariant "test" in db.files && db.files["test"] == Appends("test", all[..i])
      invariant db.files - {"test"} == before
    {
      AppendsStep("test", all, i);
      ghost var current := db.files;
      var _ := db.AppendRecords("test", all[i]);
      UpdateThenRemove(current, "test", db.files["test"]);
      i := i + 1;
    }
    assert all[..i] == all;
    RemoveThenRestore(db.files, "test");
    stored := db.files["test"];
    SeededRecords(t0, rs);
    text := db.ReadTable("test");
  }
}
