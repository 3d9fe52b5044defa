# rust_bucket table store, modelled in Dafny

rust_bucket is a minimal document store. Each named table is one file under
`./db` that holds a JSON envelope `Data<T>`. The envelope has three fields:
`table` (the name), `next_id` (a decimal string, the id the next appended
record gets) and `records` (a map from decimal-string ids to records of a
user-defined type `T`). This project models the engine in `src/lib.rs` and
the error type in `src/errors.rs`.

- `wrappers.dfy`: `Option`.
- `errors.dfy` (module `Errors`): the enum `Error` (`Io`, `Serde`,
  `NoSuchTable`), the two `From` conversions, `Display`, `description` and
  `cause`. The wrapped `io::Error` and `serde_json::Error` are opaque
  values: each carries the message its own `Display` writes and the string
  its own `description` returns.
- `decimal.dfy` (module `Decimal`): the counter arithmetic of
  `append_records`, that is, Rust's `i32::to_string` and
  `str::parse::<i32>`, written out digit by digit. It proves that parsing
  undoes printing for every 32-bit value.
- `table_store.dfy` (module `TableStore`): the envelope `Data<T>`,
  `create_base_data`, the envelope an append produces, and the class `Db`.
  `Db` stands for the filesystem. `dirExists` says whether `./db` exists.
  `files` maps each table name to the envelope stored in its file. The
  class's methods are the engine's operations. serde_json is a `Codec`: a
  pair of functions `encode`/`decode`. The model assumes only that
  `decode(encode(d)) == Some(d)`, as a requirement on the codec held by `Db`.

Behaviour of the code that the model keeps as written:

- `append_records(table, t)` and `read_records()` always read the table
  `"test"`. `append_records` then writes its result to the file `table`,
  so appending to any other table copies the `"test"` envelope into it.
  The copied envelope keeps `"test"` in its `table` field.
- `read_table` panics (`expect`) on a missing file. `append_records`
  panics (`unwrap`) on a missing `"test"` table or an unparsable counter,
  and the `+ 1` overflows at `i32::MAX`. These cases are preconditions.
- `update_table` and `upgrade_table` do not create `./db`. When the
  directory is missing they return the `NotFound` I/O error and change
  nothing. `create_table` creates the directory first.
- `create_table` on an existing table returns `Ok` and writes nothing.
- `update_table` resets a table to a fresh one-record envelope, losing its
  records and its counter.
- The counter is parsed leniently (`"+12"` and `"007"` are accepted), and
  the key is written back in canonical form.

The engine returns `io::Result`; `read_table` and `append_records` panic
rather than return errors; no function in `src/lib.rs` builds the crate's
`errors::Error`.

## Model

| member | source | states |
|---|---|---|
| `Errors.FromIo` | src/errors.rs:41-45 | the conversion yields `Io` around the same inner error: `cause` gives that error back and `Display` is the IO prefix plus its message |
| `Errors.FromSerde` | src/errors.rs:47-51 | the conversion yields `Serde` around the same inner error: `cause` gives it back and `Display` is the (de)serializing prefix plus its message |
| `Errors.CauseOf` | src/errors.rs:79-85 | `cause` is `None` exactly for `NoSuchTable`; for `Io` and `Serde` it is the wrapped error |
| `Errors.Description` | src/errors.rs:70-77 | `NoSuchTable` has the fixed description "Tried to open a table that doesn't exist"; `Io` and `Serde` give the inner error's description |
| `Errors.Display` | src/errors.rs:53-68 | the text starts with the variant's prefix followed by the inner message; for `NoSuchTable(t)` it is the quoted-name text with `t` exactly between prefix and suffix |
| `Errors.DisplayDistinguishes` | src/errors.rs:53-68 | equal displayed texts mean the same variant and the same inner message or table name, so the text never confuses IO, serde and missing-table errors |
| `Errors.DescriptionForgetsTable` | src/errors.rs:64-75 | two different table names give the same description but different displayed texts |
| `Decimal.NatToString` | src/lib.rs:76-77 | printing a non-negative counter gives a non-empty run of decimal digits with no leading zero |
| `Decimal.IntToString` | src/lib.rs:76-77 | `i32::to_string` is non-empty and, for non-negative values, the plain digit string |
| `Decimal.ParseI32` | src/lib.rs:73 | parsing the counter succeeds only with a value inside the 32-bit range |
| `Decimal.NatRoundTrip` | src/lib.rs:73-77 | reading back the digits of a printed non-negative number gives that number |
| `Decimal.NatToStringInjective` | src/lib.rs:76 | distinct non-negative counters print as distinct ids |
| `Decimal.ParseRoundTrip` | src/lib.rs:73-77 | for every 32-bit value, parsing its printed form gives that value back |
| `Decimal.IntToStringInjective` | src/lib.rs:76-77 | distinct 32-bit values print as distinct strings |
| `Decimal.LeadingZeros` | src/lib.rs:73 | any number of leading zeros leaves the value of a run of digits unchanged |
| `Decimal.ParseAcceptsLeadingZeros` | src/lib.rs:73 | for every value in range, its digits preceded by any number of zeros parse to that value, so a stored counter need not be in the form `to_string` writes |
| `Decimal.ParseAcceptsPlus` | src/lib.rs:73 | for every value in range, its digits preceded by '+' parse to that value |
| `Decimal.ParseAcceptsNonCanonical` | src/lib.rs:73 | parse accepts "007" (as 7, printed back "7") and "+12", and refuses "", "-" and "1a" |
| `TableStore.BaseData` | src/lib.rs:99-110 | a fresh envelope has the given name, `next_id` "1" and exactly one record, `t` under "0" |
| `TableStore.BaseDataCounted` | src/lib.rs:99-110 | a fresh envelope's counter parses to 1 and every record id parses below it |
| `TableStore.Appended` | src/lib.rs:70-80 | an append with counter `n` keeps the `table` field, puts the record under `to_string(n)`, sets the counter to `to_string(n + 1)` (which parses to `n + 1`) and leaves every other record unchanged |
| `TableStore.AppendedCounted` | src/lib.rs:71-80 | an append preserves "every id parses below `next_id`", and its new id was unused, so no record is overwritten |
| `TableStore.NumberedAt` | src/lib.rs:148-156 | in a numbering of records, the id `i` holds the record at position `i` |
| `TableStore.NumberedKeys` | src/lib.rs:148-156 | a numbering of `n` records uses exactly the ids "0" to `n - 1` |
| `TableStore.Appends` | src/lib.rs:148-156 | creating a table with a seed record and appending the remaining records one by one gives a counter equal to the total number of records, and the records numbered from "0" in the order they were added |
| `TableStore.AppendsStep` | src/lib.rs:71-80 | every append in such a run can proceed (counter parses, below `i32::MAX`) and extends the run by one step |
| `TableStore.Db.CreateDbDir` | src/lib.rs:112-118 | idempotent: if `./db` exists nothing changes, otherwise it exists afterwards; files are untouched |
| `TableStore.Db.UpgradeTable` | src/lib.rs:84-91 | overwrites the file `table` with the given envelope when `./db` exists, otherwise fails with `NotFound` and changes nothing |
| `TableStore.Db.UpdateTable` | src/lib.rs:31-38 | replaces the file `table` with a fresh envelope whatever it held, or fails with `NotFound` without `./db`; keeps the counter invariant of all files |
| `TableStore.Db.CreateTable` | src/lib.rs:40-54 | always `Ok` with `./db` present; an existing table is left unchanged, a new one is added holding the fresh envelope, and no other file changes |
| `TableStore.Db.ReadTable` | src/lib.rs:56-61 | requires the file to exist (else panic); the returned text decodes to the stored envelope |
| `TableStore.Db.ReadRecords` | src/lib.rs:93-97 | requires the table "test" (else panic); returns its records |
| `TableStore.Db.AppendRecords` | src/lib.rs:70-80 | requires "test" with a counter that parses below `i32::MAX`; writes the append of "test"'s envelope to `table`, changes no other file and keeps the counter invariant of all files |
| `TableStore.Db.DropTable` | src/lib.rs:63-68 | removes exactly the named file; with no such file it fails with `NotFound` and changes nothing |
| `TableStore.SeededRecords` | src/lib.rs:148-156 | numbering a seed followed by N records gives exactly the ids "0" to "N", the seed under "0" and the i-th following record under id i |
| `TableStore.AppendScenario` | src/lib.rs:147-156 | on any store where "test" is absent, `create_table("test", t0)` followed by N appends to "test" changes only the file "test", leaving counter N + 1 and exactly the ids "0" to "N", with `t0` under "0" and the i-th appended record under id i; `read_table` decodes back to that envelope |

## Left out

- JSON bytes and `HashMap` order: serde_json is the `Codec`, assumed to round-trip. Its byte-level output is not modelled, and neither is a serialisation failure (the source `unwrap`s it).
- Path resolution: every table name is a distinct plain file inside `./db`. Names such as `""`, `".."` or `"a/b"`, which `Path::join` would resolve elsewhere, are not modelled.
- I/O failures other than a missing directory (`File::create`) or a missing file (`fs::remove_file`) are not modelled: permissions, a full disk, a failed `write_all`, a failed `fs::create_dir`, or a `./db` that is a plain file. The model's only I/O error is the `NotFound` error for those two cases.
- `TableStore.Db.ReadTable`: the text is exactly the encoded envelope. `lines().collect()` drops line breaks, and compact JSON written by this engine has none. A file edited by hand to contain line breaks is not modelled.
- `TableStore.Db.AppendRecords`: a counter at `i32::MAX` is a precondition. That follows the panic of a debug build; the wrap-around of a release build is not modelled.
- `upgrade_table` accepts any serialisable value. It is modelled only at the envelope type, which is its one use.
- `Display::fmt` failing to write to its formatter is not modelled: `Display` gives the full text.
- The benchmark (src/lib.rs:179-184) and the test creating and dropping 100 tables (src/lib.rs:164-177) are not modelled. `build.rs` (build-time code generation) and `src/sc/mod.rs` (a plain record struct, one possible `T`) are not part of this model.
