/**
 * The crate's error type (src/errors.rs). The wrapped `io::Error` and
 * `serde_json::Error` are opaque here: each is carried as the message its
 * own `Display` writes and the string its own `description` returns.
 */
module Errors {
  import opened Wrappers

  /** The kind of an `io::Error`; only "not found" is told apart by the store. */
  datatype IoErrorKind = NotFound | Other

  datatype IoError = IoError(kind: IoErrorKind, message: string, description: string)

  datatype SerdeError = SerdeError(message: string, description: string)

  datatype Error =
    | Io(io: IoError)
    | Serde(serde: SerdeError)
    | NoSuchTable(table: string)

  /** What `cause` hands back: a reference to the wrapped error. */
  datatype Cause = IoCause(io: IoError) | SerdeCause(serde: SerdeError)

  const IoPrefix: string := "Error performing IO: "
  const SerdePrefix: string := "Error (de)serializing: "
  const MissingPrefix: string := "Tried to open the table \""
  const MissingSuffix: string := "\", which does not exist."
  const MissingDescription: string := "Tried to open a table that doesn't exist"

  /** `Error::cause`: the wrapped error, if there is one. */
  function CauseOf(e: Error): (c: Option<Cause>)
    ensures c.None? <==> e.NoSuchTable?
    ensures e.Io? ==> c == Some(IoCause(e.io))
    ensures e.Serde? ==> c == Some(SerdeCause(e.serde))
  {
    match e
    case Io(inner) => Some(IoCause(inner))
    case Serde(inner) => Some(SerdeCause(inner))
    case NoSuchTable(_) => None
  }

  /** `From<io::Error>`: the inner error is wrapped unchanged, and `cause` gives it back. */
  function FromIo(e: IoError): (r: Error)
    ensures r.Io? && CauseOf(r) == Some(IoCause(e))
    ensures Display(r) == IoPrefix + e.message
  {
    Io(e)
  }

  /** `From<serde_json::Error>`: the inner error is wrapped unchanged, and `cause` gives it back. */
  function FromSerde(e: SerdeError): (r: Error)
    ensures r.Serde? && CauseOf(r) == Some(SerdeCause(e))
    ensures Display(r) == SerdePrefix + e.message
  {
    Serde(e)
  }

  /** `Display::fmt`: the text written to the formatter. */
  function Display(e: Error): (s: string)
    ensures e.Io? ==> IoPrefix <= s && s[|IoPrefix|..] == e.io.message
    ensures e.Serde? ==> SerdePrefix <= s && s[|SerdePrefix|..] == e.serde.message
    ensures e.NoSuchTable? ==>
      |s| == |MissingPrefix| + |e.table| + |MissingSuffix| &&
      MissingPrefix <= s && s[|MissingPrefix|..|s| - |MissingSuffix|] == e.table &&
      s[|s| - |MissingSuffix|..] == MissingSuffix
  {
    match e
    case Io(inner) => IoPrefix + inner.message
    case Serde(inner) => SerdePrefix + inner.message
    case NoSuchTable(t) => MissingPrefix + t + MissingSuffix
  }

  /** `description`: fixed for a missing table, the inner error's own otherwise. */
  function Description(e: Error): (s: string)
    ensures e.NoSuchTable? ==> s == MissingDescription
    ensures e.Io? ==> s == e.io.description
    ensures e.Serde? ==> s == e.serde.description
  {
    match e
    case Io(inner) => inner.description
    case Serde(inner) => inner.description
    case NoSuchTable(_) => MissingDescription
  }

  /**
   * The displayed text tells the three kinds apart and keeps what each one
   * reports: the table name, or the inner error's message.
   */
  lemma DisplayDistinguishes(a: Error, b: Error)
    requires Display(a) == Display(b)
    ensures a.Io? <==> b.Io?
    ensures a.Serde? <==> b.Serde?
    ensures a.NoSuchTable? <==> b.NoSuchTable?
    ensures a.Io? ==> a.io.message == b.io.message
    ensures a.Serde? ==> a.serde.message == b.serde.message
    ensures a.NoSuchTable? ==> a == b
  {
    var s := Display(a);
    // The three prefixes already differ at index 0 or 6.
    assert IoPrefix[0] == 'E' && IoPrefix[6] == 'p';
    assert SerdePrefix[0] == 'E' && SerdePrefix[6] == '(';
    assert MissingPrefix[0] == 'T';
    if a.Io? {
      assert s[6] == 'p';
    } else if a.Serde? {
      assert s[6] == '(';
    } else {
      assert s[0] == 'T';
    }
  }

  /**
   * `description` forgets which table was missing, while `Display` keeps it:
   * two different names share a description but never a displayed text.
   */
  lemma DescriptionForgetsTable(t: string, u: string)
    requires t != u
    ensures Description(NoSuchTable(t)) == Description(NoSuchTable(u))
    ensures Display(NoSuchTable(t)) != Display(NoSuchTable(u))
  {
  }
}
