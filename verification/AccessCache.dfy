/**
 * The Valkey region tac:acl:{tenant}:{tender}:{user}: key text and a store whose entries die
 * 30 seconds after they were set.
 */
module AccessCache {
  import opened Domain

  const TTL: nat := 30_000_000

  datatype Cell = Cell(value: CachedAccess, setAt: Time)
  type Store = map<string, Cell>

  /** Canonical UUID text: 32 lower-case hex digits in groups of 8-4-4-4-12 (section 4 of RFC 9562). */
  function UuidText(u: Uuid): (s: string)
    ensures |s| == 36
  {
    Grouped(Hex(u, 32))
  }

  function Grouped(h: string): (s: string)
    requires |h| == 32
    ensures |s| == 36
  {
    h[..8] + "-" + h[8..12] + "-" + h[12..16] + "-" + h[16..20] + "-" + h[20..]
  }

  function Hex(n: nat, width: nat): (s: string)
    ensures |s| == width
  {
    if width == 0 then "" else Hex(n / 16, width - 1) + [HexDigit(n % 16)]
  }

  function HexDigit(d: nat): char
    requires d < 16
  {
    "0123456789abcdef"[d]
  }

  function Power16(w: nat): nat {
    if w == 0 then 1 else 16 * Power16(w - 1)
  }

  /** Get hits only while the entry lives. */
  predicate Hits(s: Store, k: Triple, now: Time) {
    KeyText(k) in s && now - s[KeyText(k)].setAt < TTL
  }

  function KeyText(k: Triple): string {
    Joined(UuidText(k.tenant), UuidText(k.tender), UuidText(k.user))
  }

  function Joined(tenant: string, tender: string, user: string): string {
    "tac:acl:" + tenant + ":" + tender + ":" + user
  }

  lemma {:induction false} HexInjective(m: nat, n: nat, width: nat)
    requires m < Power16(width) && n < Power16(width)
    requires Hex(m, width) == Hex(n, width)
    ensures m == n
  {
    if width > 0 {
      HexParts(m, width);
      HexParts(n, width);
      DigitInjective(m % 16, n % 16);
      HexInjective(m / 16, n / 16, width - 1);
    }
  }

  lemma HexParts(n: nat, width: nat)
    requires width > 0 && n < Power16(width)
    ensures n / 16 < Power16(width - 1) && n == n / 16 * 16 + n % 16
    ensures Hex(n, width)[..width - 1] == Hex(n / 16, width - 1) && Hex(n, width)[width - 1] == HexDigit(n % 16)
  {
  }

  lemma DigitInjective(d: nat, e: nat)
    requires d < 16 && e < 16 && HexDigit(d) == HexDigit(e)
    ensures d == e
  {
  }

  lemma Power16Of32()
    ensures Power16(32) == UUID_SPACE
  {
    assert Power16(8) == 0x1_0000_0000;
    assert Power16(16) == 0x1_0000_0000_0000_0000;
    assert Power16(24) == 0x1_0000_0000_0000_0000_0000_0000;
  }

  lemma GroupedInjective(g: string, h: string)
    requires |g| == 32 && |h| == 32 && Grouped(g) == Grouped(h)
    ensures g == h
  {
    forall i | 0 <= i < 32 ensures g[i] == h[i] {
      var at := if i < 8 then i else if i < 12 then i + 1 else if i < 16 then i + 2 else if i < 20 then i + 3
          else i + 4;
      assert Grouped(g)[at] == g[i];
      assert Grouped(h)[at] == h[i];
    }
  }

  lemma UuidTextInjective(u: Uuid, v: Uuid)
    requires UuidText(u) == UuidText(v)
    ensures u == v
  {
    GroupedInjective(Hex(u, 32), Hex(v, 32));
    Power16Of32();
    HexInjective(u, v, 32);
  }

  lemma JoinInjective(a: string, b: string, c: string, x: string, y: string, z: string)
    requires |a| == |x| && |b| == |y| && Joined(a, b, c) == Joined(x, y, z)
    ensures a == x && b == y && c == z
  {
    var s, s' := Joined(a, b, c), Joined(x, y, z);
    var m, n := 8 + |a|, 9 + |a| + |b|;
    assert s[8..m] == a && s'[8..m] == x;
    assert s[m + 1..n] == b && s'[m + 1..n] == y;
    assert s[n + 1..] == c && s'[n + 1..] == z;
  }

  /** Two triples share a cache key only if they are the same triple. */
  lemma KeyInjective(k: Triple, k': Triple)
    requires KeyText(k) == KeyText(k')
    ensures k == k'
  {
    JoinInjective(UuidText(k.tenant), UuidText(k.tender), UuidText(k.user),
                  UuidText(k'.tenant), UuidText(k'.tender), UuidText(k'.user));
    UuidTextInjective(k.tenant, k'.tenant);
    UuidTextInjective(k.tender, k'.tender);
    UuidTextInjective(k.user, k'.user);
  }

  // ---- reading a key back -----------------------------------------------------------------------

  function DigitValue(c: char): int {
    if '0' <= c <= '9' then c as int - '0' as int else if 'a' <= c <= 'f' then c as int - 'a' as int + 10 else -1
  }

  /** The number a text of hex digits denotes, the leading digit first. */
  function HexValue(s: string): int {
    if s == "" then 0 else 16 * HexValue(s[..|s| - 1]) + DigitValue(s[|s| - 1])
  }

  lemma {:induction false} HexDenotes(n: nat, width: nat)
    requires n < Power16(width)
    ensures HexValue(Hex(n, width)) == n
  {
    if width > 0 {
      HexParts(n, width);
      HexDenotes(n / 16, width - 1);
    }
  }

  /** The digits of a UUID text, without its four dashes. */
  function Digits(s: string): string
    requires |s| == 36
  {
    s[..8] + s[9..13] + s[14..18] + s[19..23] + s[24..]
  }

  predicate Denotes(s: string, u: Uuid) {
    |s| == 36 && s[8] == s[13] == s[18] == s[23] == '-' && HexValue(Digits(s)) == u
  }

  lemma UuidTextDenotes(u: Uuid)
    ensures Denotes(UuidText(u), u)
  {
    Power16Of32();
    HexDenotes(u, 32);
    DigitsOfGrouped(Hex(u, 32));
  }

  lemma DigitsOfGrouped(h: string)
    requires |h| == 32
    ensures Digits(Grouped(h)) == h
  {
    var s := Grouped(h);
    assert s[..8] == h[..8] && s[9..13] == h[8..12];
    assert s[14..18] == h[12..16] && s[19..23] == h[16..20];
    assert s[24..] == h[20..];
  }

  /** The key spells out, between colons, the tenant, the tender and the user, in this order. */
  lemma KeyDenotes(k: Triple)
    ensures var s := KeyText(k);
            && |s| == 118 && s[..8] == "tac:acl:" && s[44] == ':' && s[81] == ':'
            && Denotes(s[8..44], k.tenant) && Denotes(s[45..81], k.tender) && Denotes(s[82..], k.user)
  {
    var a, b, c := UuidText(k.tenant), UuidText(k.tender), UuidText(k.user);
    UuidTextDenotes(k.tenant);
    UuidTextDenotes(k.tender);
    UuidTextDenotes(k.user);
    JoinedParts(a, b, c);
  }

  lemma JoinedParts(a: string, b: string, c: string)
    requires |a| == |b| == |c| == 36
    ensures var s := Joined(a, b, c);
            && |s| == 118 && s[..8] == "tac:acl:" && s[44] == ':' && s[81] == ':'
            && s[8..44] == a && s[45..81] == b && s[82..] == c
  {
  }
}
