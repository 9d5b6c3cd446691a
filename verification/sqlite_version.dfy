/**
 * The schema version of a database (`user_version`), read two ways: straight from
 * the file header without opening the database (`get_version(path, version)`), and
 * through the `PRAGMA user_version` query on an open database (`get_version()`).
 * The SQLite file format keeps the value as a big-endian 32-bit integer at byte
 * offset 60 of the 100-byte header, after the 16-byte signature.
 */
module SqliteVersion {
  import opened Wrappers
  import opened Retry
  import SqliteQuery

  type byte = x: int | 0 <= x < 0x100

  const Two32: nat := 0x1_0000_0000

  /** "SQLite format 3" followed by a NUL, byte for byte. */
  const Signature: seq<byte> :=
    [0x53, 0x51, 0x4c, 0x69, 0x74, 0x65, 0x20, 0x66, 0x6f, 0x72, 0x6d, 0x61, 0x74, 0x20, 0x33, 0x00]

  const VersionOffset: nat := 60

  function Pow256(n: nat): (p: nat)
    ensures 1 <= p
  {
    if n == 0 then 1 else 256 * Pow256(n - 1)
  }

  /** The value of bytes read most significant first (`be32toh` on four bytes). */
  function BigEndian(b: seq<byte>): (v: nat)
    decreases |b|
  {
    if |b| == 0 then 0 else BigEndian(b[..|b| - 1]) * 256 + b[|b| - 1]
  }

  /** The `n` bytes of `v`, most significant first. */
  function Bytes(v: nat, n: nat): (b: seq<byte>)
    ensures |b| == n
    decreases n
  {
    if n == 0 then [] else Bytes(v / 256, n - 1) + [v % 256]
  }

  lemma {:induction false} BigEndianBound(b: seq<byte>)
    ensures BigEndian(b) < Pow256(|b|)
    decreases |b|
  {
    if |b| > 0 {
      BigEndianBound(b[..|b| - 1]);
    }
  }

  /** Writing a value that fits and reading it back gives the value. */
  lemma {:induction false} BytesThenBigEndian(v: nat, n: nat)
    requires v < Pow256(n)
    ensures BigEndian(Bytes(v, n)) == v
    decreases n
  {
    if n > 0 {
      BytesThenBigEndian(v / 256, n - 1);
      var b := Bytes(v, n);
      assert b[..|b| - 1] == Bytes(v / 256, n - 1);
    }
  }

  /** Reading bytes and writing the value back gives the bytes. */
  lemma {:induction false} BigEndianThenBytes(b: seq<byte>)
    ensures Bytes(BigEndian(b), |b|) == b
    decreases |b|
  {
    if |b| > 0 {
      var init := b[..|b| - 1];
      BigEndianThenBytes(init);
      assert BigEndian(b) / 256 == BigEndian(init);
      assert b == init + [b[|b| - 1]];
    }
  }

  /** Whether the file starts like an SQLite database and is long enough to hold the version. */
  predicate HasHeader(file: seq<byte>): (b: bool)
    ensures b ==> 64 <= |file| && forall i :: 0 <= i < 16 ==> file[i] == Signature[i]
  {
    VersionOffset + 4 <= |file| && file[..|Signature|] == Signature
  }

  /**
   * `get_version(path, version)` on the file's bytes: fails (`None`) unless the
   * first 16 bytes are the signature and the four bytes at offset 60 can be read;
   * the version is those four bytes, big-endian.
   */
  function ReadVersion(file: seq<byte>): (r: Option<nat>)
    ensures r.Some? <==> HasHeader(file)
    ensures r.Some? ==> r.value < Two32
    ensures r.Some? ==> Bytes(r.value, 4) == file[VersionOffset..VersionOffset + 4]
  {
    if HasHeader(file) then
      var field := file[VersionOffset..VersionOffset + 4];
      BigEndianBound(field);
      BigEndianThenBytes(field);
      assert Pow256(4) == Two32;
      Some(BigEndian(field))
    else None
  }

  /** Where the engine keeps `user_version`: the header field at offset 60; nothing else changes. */
  function WriteVersion(file: seq<byte>, v: nat): (r: seq<byte>)
    requires HasHeader(file) && v < Two32
    ensures |r| == |file|
    ensures forall i :: 0 <= i < |file| && !(VersionOffset <= i < VersionOffset + 4) ==> r[i] == file[i]
  {
    file[..VersionOffset] + Bytes(v, 4) + file[VersionOffset + 4..]
  }

  /** A version the engine stored is the version `ReadVersion` reports. */
  lemma WriteThenRead(file: seq<byte>, v: nat)
    requires HasHeader(file) && v < Two32
    ensures ReadVersion(WriteVersion(file, v)) == Some(v)
  {
    var w := WriteVersion(file, v);
    assert w[..|Signature|] == file[..|Signature|];
    assert w[VersionOffset..VersionOffset + 4] == Bytes(v, 4);
    assert Pow256(4) == Two32;
    BytesThenBigEndian(v, 4);
  }

  /** `sqlite3_column_int` on a 64-bit value: its low 32 bits as a signed integer. */
  function ColumnInt(x: SqliteQuery.int64): (i: SqliteQuery.int32)
    ensures (i - x) % Two32 == 0
    ensures -0x8000_0000 <= x < 0x8000_0000 ==> i == x
  {
    var low := x % Two32;
    if low < 0x8000_0000 then low else low - Two32
  }

  /** The conversion of a signed integer to `std::uint32_t`: modulo 2^32. */
  function ToUint32(i: int): (u: nat)
    ensures u < Two32
    ensures (u - i) % Two32 == 0
    ensures 0 <= i < Two32 ==> u == i
  {
    i % Two32
  }

  /** The signed 32-bit reading of a header field, as the engine reports `user_version`. */
  function Signed32(u: nat): (i: SqliteQuery.int32)
    requires u < Two32
    ensures ToUint32(i) == u
  {
    if u < 0x8000_0000 then u else u - Two32
  }

  const PragmaQuery: string := "PRAGMA user_version"

  /**
   * `get_version()`: prepares and steps `PRAGMA user_version` with busy-retry
   * (the engine's answers follow each other in `answer`) and fails when either
   * fails; otherwise the version is 0 when the statement produced no data column
   * and the first column, truncated to `int` and converted to `std::uint32_t`,
   * when it did.
   */
  function GetVersion(answer: Answers, tries: nat, dataCount: SqliteQuery.int32, column: SqliteQuery.int64): (r: Option<nat>)
    ensures r.Some? ==> r.value < Two32
    ensures r.Some? && dataCount <= 0 ==> r.value == 0
    ensures r.Some? && 0 < dataCount ==> (r.value - column) % Two32 == 0
    ensures 1 <= tries && answer(0) == Ok && (answer(1) == Row || answer(1) == Done) ==> r.Some?
    ensures 1 <= tries && answer(0) != Ok && answer(0) != Busy ==> r.None?
    ensures var p := SqliteQuery.Prepare(SqliteQuery.NewQuery(PragmaQuery, []), answer, tries);
            r.Some? <==> p.ok && SqliteQuery.Next(p.query, false, Shift(answer, p.attempts), tries).ok
  {
    var q := SqliteQuery.NewQuery(PragmaQuery, []);
    var p := SqliteQuery.Prepare(q, answer, tries);
    if !p.ok then None
    else
      var n := SqliteQuery.Next(p.query, false, Shift(answer, p.attempts), tries);
      if !n.ok then None
      else if SqliteQuery.ClampCount(dataCount) == 0 then Some(0)
      else Some(ToUint32(ColumnInt(column)))
  }

  /**
   * The two ways of reading the version agree: on a database whose header holds
   * `v`, the engine reports `v` as a signed 32-bit number, and the pragma query
   * converts it back to `v`.
   */
  lemma HeaderAgreesWithPragma(file: seq<byte>, answer: Answers, tries: nat)
    requires HasHeader(file)
    requires 1 <= tries && answer(0) == Ok && answer(1) == Row
    ensures GetVersion(answer, tries, 1, Signed32(ReadVersion(file).value)) == ReadVersion(file)
  {
    var v := ReadVersion(file).value;
    assert ColumnInt(Signed32(v)) == Signed32(v);
  }
}
