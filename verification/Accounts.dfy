// How accounts are named: by the venue, in the list of those switched on, and
// as lock files; and the client order ids their orders carry.
module Accounts {
  import opened Basics
  import opened Text

  datatype Venue = Hyperliquid | Aster | Bybit | Binance | Blofin

  // ---- Names ----------------------------------------------------------

  function StripPrefix(s: string, prefix: string): Option<string> {
    if prefix <= s then Some(s[|prefix|..]) else None
  }

  predicate IsUid(s: string) { s != [] && |s| <= 20 && AllDigits(s) }

  // Whether a numbered account is a demo one, by its prefix, and its digits.
  function UidAccount(id: string): Option<(bool, string)> {
    var demo := StripPrefix(id, "demo:");
    var uid := if demo.Some? then demo.value else id;
    if IsUid(uid) then Some((demo.Some?, uid)) else None
  }

  predicate IsHex(c: char) { IsDigit(c) || 'a' <= c <= 'f' || 'A' <= c <= 'F' }

  function Lower(c: char): char {
    if 'A' <= c <= 'Z' then (c as int - 'A' as int + 'a' as int) as char else c
  }

  function LowerAll(s: string): (r: string)
    ensures |r| == |s| && forall i :: 0 <= i < |s| ==> r[i] == Lower(s[i])
  {
    seq(|s|, i requires 0 <= i < |s| => Lower(s[i]))
  }

  // The one spelling an address is stored under: small letters all through.
  predicate IsAddress(s: string) {
    |s| == 42 && s[0] == '0' && s[1] == 'x'
    && forall i :: 2 <= i < 42 ==> IsHex(s[i]) && Lower(s[i]) == s[i]
  }

  function NormalizeAddress(address: string): (r: Option<string>)
    ensures r.Some? ==> IsAddress(r.value)
  {
    var lower := LowerAll(Trim(address));
    var hex := StripPrefix(lower, "0x");
    if hex.Some? && |hex.value| == 40 && forall i :: 0 <= i < 40 ==> IsHex(hex.value[i]) then
      assert forall i :: 2 <= i < 42 ==> lower[i] == hex.value[i - 2];
      Some(lower)
    else None
  }

  // ---- The accounts a switch is kept for ------------------------------

  function LiveUid(uid: string): Option<string> {
    match UidAccount(Trim(uid))
    case Some((demo, bare)) => if demo then None else Some(bare)
    case None => None
  }

  function BinanceId(uid: string): Option<string> {
    match UidAccount(Trim(uid))
    case Some((demo, bare)) => if demo then None else Some("binance:" + bare)
    case None => None
  }

  function WalletId(venue: Venue, address: string): Option<string> {
    match NormalizeAddress(address)
    case None => None
    case Some(whole) =>
      match venue
      case Hyperliquid => Some("hyperliquid:" + whole)
      case Aster => Some("aster:" + whole)
      case _ => None
  }

  // Whether an id is one of those three.
  predicate KnownId(id: string) {
    || LiveUid(id) == Some(id)
    || (var uid := StripPrefix(id, "binance:"); uid.Some? && BinanceId(uid.value) == Some(id))
    || (var parts := SplitOnce(id, ':');
        parts.Some? && (WalletId(Hyperliquid, parts.value.1) == Some(id)
                        || WalletId(Aster, parts.value.1) == Some(id)))
  }

  lemma TrimKeeps(s: string)
    requires s == [] || (!IsSpace(s[0]) && !IsSpace(s[|s| - 1]))
    ensures Trim(s) == s
  {
  }

  lemma UidIsItself(uid: string)
    requires IsUid(uid)
    ensures Trim(uid) == uid && UidAccount(uid) == Some((false, uid))
    ensures ':' !in uid
  {
    TrimKeeps(uid);
    assert "demo:"[0] == 'd' && IsDigit(uid[0]) && !IsDigit('d');
  }

  lemma AddressIsItself(address: string)
    requires IsAddress(address)
    ensures NormalizeAddress(address) == Some(address) && ':' !in address
  {
    assert Lower(address[41]) == address[41] && IsHex(address[41]);
    TrimKeeps(address);
    assert LowerAll(address) == address;
    assert "0x" <= address by { assert address[..2] == "0x"; }
    var hex := address[2..];
    assert forall i :: 0 <= i < 40 ==> IsHex(hex[i]) by {
      assert forall i :: 0 <= i < 40 ==> hex[i] == address[i + 2];
    }
    assert !IsHex(':');
  }

  lemma {:induction false} SplitAtFirst(a: string, b: string)
    requires ':' !in a
    ensures SplitOnce(a + [':'] + b, ':') == Some((a, b))
  {
    var s := a + [':'] + b;
    if a == [] {
      assert s[1..] == b;
    } else {
      assert s[1..] == a[1..] + [':'] + b;
      SplitAtFirst(a[1..], b);
      assert a == [a[0]] + a[1..];
    }
  }

  // What the three functions write is what is read back as known.
  lemma WrittenIdsAreKnown(uid: string, address: string)
    ensures LiveUid(uid).Some? ==> KnownId(LiveUid(uid).value)
    ensures BinanceId(uid).Some? ==> KnownId(BinanceId(uid).value)
    ensures WalletId(Hyperliquid, address).Some? ==> KnownId(WalletId(Hyperliquid, address).value)
    ensures WalletId(Aster, address).Some? ==> KnownId(WalletId(Aster, address).value)
  {
    hide NormalizeAddress;
    if LiveUid(uid).Some? {
      UidIsItself(LiveUid(uid).value);
      assert KnownId(LiveUid(uid).value);
    }
    if BinanceId(uid).Some? {
      var bare := UidAccount(Trim(uid)).value.1;
      UidIsItself(bare);
      assert StripPrefix("binance:" + bare, "binance:") == Some(bare);
      assert KnownId("binance:" + bare);
    }
    if NormalizeAddress(address).Some? {
      var whole := NormalizeAddress(address).value;
      AddressIsItself(whole);
      SplitAtFirst("hyperliquid", whole);
      SplitAtFirst("aster", whole);
      assert "hyperliquid:" + whole == "hyperliquid" + [':'] + whole;
      assert "aster:" + whole == "aster" + [':'] + whole;
      assert KnownId("hyperliquid:" + whole) && KnownId("aster:" + whole);
    }
  }

  // ---- Lock files -----------------------------------------------------

  function VenueName(venue: Venue): string {
    match venue
    case Hyperliquid => "hyperliquid"
    case Aster => "aster"
    case Bybit => "bybit"
    case Binance => "binance"
    case Blofin => "blofin"
  }

  function Safe(c: char): char {
    if IsDigit(c) || 'a' <= c <= 'z' || 'A' <= c <= 'Z' || c == '-' then c else '_'
  }

  function SafeAll(s: string): (r: string)
    ensures |r| == |s| && forall i :: 0 <= i < |s| ==> r[i] == Safe(s[i])
  {
    seq(|s|, i requires 0 <= i < |s| => Safe(s[i]))
  }

  // What the lock file of an account is called.
  function LockName(venue: Venue, account: string): string {
    VenueName(venue) + "-" + SafeAll(account) + ".lock"
  }

  // Two accounts share a lock exactly on one venue, spelled alike but for
  // characters a file name can't hold.
  lemma LocksAreShared(v: Venue, a: string, w: Venue, b: string)
    ensures LockName(v, a) == LockName(w, b) <==> v == w && SafeAll(a) == SafeAll(b)
  {
    var x, y := LockName(v, a), LockName(w, b);
    assert x[0] == VenueName(v)[0] && x[1] == VenueName(v)[1];
    assert y[0] == VenueName(w)[0] && y[1] == VenueName(w)[1];
    if x == y {
      var n := |VenueName(v)| + 1;
      assert v == w;
      assert x[n..|x| - 5] == SafeAll(a) && y[n..|y| - 5] == SafeAll(b);
    }
  }

  // Numbered accounts are one to a lock: no two valid ones share it.
  lemma UidLocksAreOwn(v: Venue, a: string, b: string)
    requires UidAccount(a).Some? && UidAccount(b).Some?
    requires LockName(v, a) == LockName(v, b)
    ensures a == b
  {
    LocksAreShared(v, a, v, b);
    assert forall i :: 0 <= i < |a| ==> Safe(a[i]) == SafeAll(a)[i] == SafeAll(b)[i] == Safe(b[i]);
    UidSpelling(a);
    UidSpelling(b);
    assert forall i :: 0 <= i < |a| ==> a[i] == b[i];
  }

  // Every character of a valid account is one a file name keeps, but for the
  // colon after `demo`.
  lemma UidSpelling(a: string)
    requires UidAccount(a).Some?
    ensures forall i :: 0 <= i < |a| ==> a[i] == (if Safe(a[i]) == '_' then ':' else Safe(a[i]))
  {
    if "demo:" <= a {
      var uid := a[5..];
      assert a == "demo:" + uid;
      assert forall i :: 5 <= i < |a| ==> a[i] == uid[i - 5] && IsDigit(a[i]);
    }
  }

  // Spaces in front are no part of an address.
  lemma SpaceIsTrimmed(address: string)
    requires IsAddress(address)
    ensures NormalizeAddress(" " + address) == NormalizeAddress(address)
  {
    var spaced := " " + address;
    assert spaced[1..] == address;
    assert TrimStart(spaced) == TrimStart(address);
  }

  // ---- Client order ids -----------------------------------------------

  const U64: nat := 0x1_0000_0000_0000_0000

  function HexDigit(d: nat): char
    requires d < 16
  {
    if d < 10 then ('0' as int + d) as char else ('a' as int + d - 10) as char
  }

  // A number's last `width` hex digits.
  function Hex(n: nat, width: nat): (s: string)
    ensures |s| == width
  {
    if width == 0 then [] else Hex(n / 16, width - 1) + [HexDigit(n % 16)]
  }

  // `0x`, the log's engine id, then the command's number, 16 digits each.
  function ClientId(engineId: nat, command: nat): string
    requires engineId < U64 && command < U64
  {
    "0x" + Hex(engineId, 16) + Hex(command, 16)
  }

  function Pow16(n: nat): nat { if n == 0 then 1 else 16 * Pow16(n - 1) }

  lemma {:induction false} HexIsInjective(a: nat, b: nat, width: nat)
    requires a < Pow16(width) && b < Pow16(width) && Hex(a, width) == Hex(b, width)
    ensures a == b
  {
    if width > 0 {
      var s, t := Hex(a, width), Hex(b, width);
      assert s[..width - 1] == Hex(a / 16, width - 1) && t[..width - 1] == Hex(b / 16, width - 1);
      assert s[width - 1] == HexDigit(a % 16) && t[width - 1] == HexDigit(b % 16);
      HexIsInjective(a / 16, b / 16, width - 1);
    }
  }

  lemma SixteenDigits()
    ensures Pow16(16) == U64
  {
    assert Pow16(4) == 0x1_0000;
    assert Pow16(8) == 0x1_0000 * Pow16(4);
    assert Pow16(12) == 0x1_0000 * Pow16(8);
    assert Pow16(16) == 0x1_0000 * Pow16(12);
  }

  // No two commands, of one log or of two, share a client order id.
  lemma ClientIdIsInjective(e: nat, c: nat, f: nat, d: nat)
    requires e < U64 && c < U64 && f < U64 && d < U64
    ensures ClientId(e, c) == ClientId(f, d) <==> e == f && c == d
  {
    SixteenDigits();
    var s, t := ClientId(e, c), ClientId(f, d);
    if s == t {
      assert s[2..18] == Hex(e, 16) && t[2..18] == Hex(f, 16);
      assert s[18..34] == Hex(c, 16) && t[18..34] == Hex(d, 16);
      HexIsInjective(e, f, 16);
      HexIsInjective(c, d, 16);
    }
  }
}
