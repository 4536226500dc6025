/**
 * Values shared by the whole tender-ACL service: identifiers, time, table rows,
 * the cached answer and the request limits.
 */
module Domain {

  datatype Option<+T> = None | Some(value: T) {
    function GetOr(default: T): T {
      match this case Some(v) => v case None => default
    }
  }

  /** A UUID is its 128-bit value. */
  const UUID_SPACE: int := 0x1_0000_0000_0000_0000_0000_0000_0000_0000
  type Uuid = n: int | 0 <= n < UUID_SPACE
  const NIL_UUID: Uuid := 0

  /** Instants, in microseconds, on one monotone clock. */
  type Time = nat

  /** The (tenant, tender, user) triple that a grant is about. */
  datatype Triple = Triple(tenant: Uuid, tender: Uuid, user: Uuid)

  /** What TAC-4 answers, and what the cache stores. */
  datatype CachedAccess = NoAccess | Access(level: string, expiresAt: Option<Time>)

  /** The columns a grant supplies. */
  datatype NewEntry = NewEntry(
    key: Triple, membership: Uuid, level: string, grantedBy: Uuid,
    reason: string, expiresAt: Option<Time>)

  /** A row of tender_acl_entries; a NULL reason is the empty string, as every read coalesces it. */
  datatype Row = Row(
    entry: NewEntry, version: int, createdAt: Time, updatedAt: Time, deletedAt: Option<Time>)
  {
    predicate Live() { deletedAt.None? }

    /** TenderACLEntry.IsActive, with its two early returns. */
    predicate IsActive(now: Time) {
      if deletedAt.Some? then false
      else if entry.expiresAt.Some? && !(entry.expiresAt.value > now) then false
      else true
    }

    function AsAccess(): CachedAccess { Access(entry.level, entry.expiresAt) }
  }

  predicate ValidLevel(level: string) {
    level == "view" || level == "edit" || level == "approve"
  }

  const MAX_REASON: nat := 500

  /** Bytes of one code point in UTF-8 (section 3 of RFC 3629). */
  function Utf8Width(c: char): nat {
    var n := c as int;
    if n < 0x80 then 1 else if n < 0x800 then 2 else if n < 0x1_0000 then 3 else 4
  }

  /** Go's len on a string: the number of UTF-8 bytes. */
  function ByteLength(s: string): nat {
    if s == "" then 0 else Utf8Width(s[0]) + ByteLength(s[1..])
  }

  /** A reason that passes the service's byte limit passes the table's character limit. */
  lemma {:induction false} CharsWithinBytes(s: string)
    ensures |s| <= ByteLength(s) <= 4 * |s|
  {
    if s != "" { CharsWithinBytes(s[1..]); }
  }

  // ---- UTF-8 ------------------------------------------------------------------------------------

  /** The bytes of a code point (section 3 of RFC 3629). */
  function Utf8Char(c: char): seq<int> {
    var n := c as int;
    if n < 0x80 then [n]
    else if n < 0x800 then [0xC0 + n / 0x40, 0x80 + n % 0x40]
    else if n < 0x1_0000 then [0xE0 + n / 0x1000, 0x80 + n / 0x40 % 0x40, 0x80 + n % 0x40]
    else [0xF0 + n / 0x4_0000, 0x80 + n / 0x1000 % 0x40, 0x80 + n / 0x40 % 0x40, 0x80 + n % 0x40]
  }

  function Utf8(s: string): seq<int> {
    if s == "" then [] else Utf8Char(s[0]) + Utf8(s[1..])
  }

  /** The code point that a sequence of bytes begins with: its lead byte says how many follow. */
  function Decoded(b: seq<int>): int {
    if |b| >= 1 && b[0] < 0x80 then b[0]
    else if |b| >= 2 && 0xC0 <= b[0] < 0xE0 then (b[0] - 0xC0) * 0x40 + (b[1] - 0x80)
    else if |b| >= 3 && 0xE0 <= b[0] < 0xF0 then ((b[0] - 0xE0) * 0x40 + (b[1] - 0x80)) * 0x40 + (b[2] - 0x80)
    else if |b| >= 4 && 0xF0 <= b[0] then
      (((b[0] - 0xF0) * 0x40 + (b[1] - 0x80)) * 0x40 + (b[2] - 0x80)) * 0x40 + (b[3] - 0x80)
    else -1
  }

  /** Decoding undoes encoding, whatever follows. */
  lemma Utf8RoundTrip(c: char, rest: seq<int>)
    ensures Decoded(Utf8Char(c) + rest) == c as int
  {
    var b := Utf8Char(c) + rest;
    assert forall i :: 0 <= i < |Utf8Char(c)| ==> b[i] == Utf8Char(c)[i];
    Sextets(c as int);
  }

  lemma Sextets(n: nat)
    ensures n == n / 0x40 * 0x40 + n % 0x40
    ensures n / 0x40 == n / 0x1000 * 0x40 + n / 0x40 % 0x40
    ensures n / 0x1000 == n / 0x4_0000 * 0x40 + n / 0x1000 % 0x40
  {
  }

  /** Go's len is the length of the UTF-8 text. */
  lemma {:induction false} ByteLengthIsUtf8(s: string)
    ensures ByteLength(s) == |Utf8(s)|
  {
    if s != "" { ByteLengthIsUtf8(s[1..]); }
  }
}
