/**
 * Header sniffing (is_zip_file, is_sqlite_file). The file is seen only
 * through what opening and reading it yields: its bytes, or a failure to
 * open or read it, which both predicates turn into false.
 */
module Sniff {
  import opened Values

  datatype FileProbe = Readable(content: seq<byte>) | Unreadable

  /** The ZIP local file header signature "PK\x03\x04" (section 4.3.7 of PKWARE's APPNOTE.TXT). */
  const ZipMagic: seq<byte> := [0x50, 0x4B, 0x03, 0x04]

  /** "SQLite format 3" without the NUL that ends the 16-byte magic of the SQLite file format. */
  const SqlitePrefix: seq<byte> :=
    [0x53, 0x51, 0x4C, 0x69, 0x74, 0x65, 0x20, 0x66, 0x6F, 0x72, 0x6D, 0x61, 0x74, 0x20, 0x33]

  /** The full 16-byte header string of an SQLite database file, NUL included. */
  const SqliteMagic: seq<byte> := SqlitePrefix + [0x00]

  /** f.read(n) on a file opened for binary reading: at most n bytes from the start. */
  function ReadAtMost(content: seq<byte>, n: nat): (r: seq<byte>)
    ensures |r| <= n && r <= content
    ensures |r| == n || r == content
  {
    if |content| <= n then content else content[..n]
  }

  function StartsWith(s: seq<byte>, prefix: seq<byte>): bool {
    |prefix| <= |s| && s[..|prefix|] == prefix
  }

  /** is_zip_file: the first four bytes read are exactly the ZIP signature. */
  function IsZipFile(f: FileProbe): (r: bool)
    ensures r <==> f.Readable? && |f.content| >= 4 && f.content[..4] == ZipMagic
  {
    f.Readable? && ReadAtMost(f.content, 4) == ZipMagic
  }

  /** is_sqlite_file: the (at most 16) bytes read start with "SQLite format 3". */
  function IsSqliteFile(f: FileProbe): (r: bool)
    ensures r <==> f.Readable? && |f.content| >= 15 && f.content[..15] == SqlitePrefix
  {
    f.Readable? && StartsWith(ReadAtMost(f.content, 16), SqlitePrefix)
  }

  /** No header is both a ZIP signature and an SQLite header. */
  lemma ZipIsNeverSqlite(f: FileProbe)
    ensures !(IsZipFile(f) && IsSqliteFile(f))
  {
    if IsZipFile(f) && |f.content| >= 15 {
      assert f.content[..15][0] == f.content[..4][0] == 0x50;
    }
  }

  /** Every file carrying the full SQLite header string passes the check ... */
  lemma SqliteMagicAccepted(content: seq<byte>)
    requires |content| >= 16 && content[..16] == SqliteMagic
    ensures IsSqliteFile(Readable(content))
  {
    assert content[..15] == content[..16][..15] == SqlitePrefix;
  }

  /** ... and so does a header that differs from it only in the sixteenth byte. */
  lemma SixteenthByteIgnored(content: seq<byte>, b: byte)
    requires |content| >= 16 && content[..16] == SqliteMagic
    ensures IsSqliteFile(Readable(content[15 := b]))
  {
    assert content[15 := b][..15] == content[..16][..15] == SqlitePrefix;
  }
}
