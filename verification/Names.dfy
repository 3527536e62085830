// Which texts name an account, and which names the list of live accounts knows.
module Names {
  import opened Accounts
  import opened Basics
  import opened Text
  import Gate

  // ---- Texts without the spaces around them ---------------------------

  predicate AllSpaces(s: string) { forall i :: 0 <= i < |s| ==> s[i] == ' ' || '\t' <= s[i] <= '\r' }

  predicate Bare(s: string) {
    s != [] ==> !AllSpaces(s[..1]) && !AllSpaces(s[|s| - 1..])
  }

  lemma {:induction false} StartTrimmed(s: string) returns (before: string)
    ensures s == before + TrimStart(s) && AllSpaces(before)
    ensures TrimStart(s) != [] ==> !IsSpace(TrimStart(s)[0])
  {
    before := [];
    if s != [] && IsSpace(s[0]) {
      var rest := StartTrimmed(s[1..]);
      before := [s[0]] + rest;
      assert s == [s[0]] + s[1..];
    }
  }

  lemma {:induction false} EndTrimmed(s: string) returns (after: string)
    ensures s == TrimEnd(s) + after && AllSpaces(after)
    ensures TrimEnd(s) != [] ==> !IsSpace(TrimEnd(s)[|TrimEnd(s)| - 1])
  {
    after := [];
    if s != [] && IsSpace(s[|s| - 1]) {
      var n := |s| - 1;
      var rest := EndTrimmed(s[..n]);
      after := rest + [s[n]];
      assert s == s[..n] + [s[n]];
    }
  }

  // What trimming leaves is the text without the spaces at either end.
  lemma Trimmed(s: string) returns (before: string, after: string)
    ensures s == before + Trim(s) + after && AllSpaces(before) && AllSpaces(after) && Bare(Trim(s))
  {
    before := StartTrimmed(s);
    after := EndTrimmed(TrimStart(s));
    var t := Trim(s);
    if t != [] {
      assert TrimStart(s)[0] == t[0];
      assert t[..1][0] == t[0] && t[|t| - 1..][0] == t[|t| - 1];
    }
  }

  // ---- Accounts -------------------------------------------------------

  predicate IsNumber(s: string) { 1 <= |s| <= 20 && forall i :: 0 <= i < |s| ==> '0' <= s[i] <= '9' }

  // A numbered account is its digits, a demo one with its prefix, and nothing else is.
  lemma NumberedExactly(account: string, demo: bool, uid: string)
    ensures UidAccount(account) == Some((demo, uid))
            <==> IsNumber(uid) && account == (if demo then "demo:" else "") + uid
  {
    if IsNumber(uid) && account == (if demo then "demo:" else "") + uid {
      assert IsUid(uid);
      UidIsItself(uid);
      if demo {
        assert account[5..] == uid && "demo:" <= account;
      } else {
        assert account == uid;
      }
    }
    if UidAccount(account).Some? && "demo:" <= account {
      assert account == "demo:" + account[5..];
    }
    assert IsUid(uid) <==> IsNumber(uid);
  }

  // A wallet as it is stored: forty hex digits after `0x`, all small.
  predicate IsWallet(s: string) {
    |s| == 42 && s[..2] == "0x" && forall i :: 2 <= i < 42 ==> '0' <= s[i] <= '9' || 'a' <= s[i] <= 'f'
  }

  predicate SameButForCase(a: char, b: char) {
    a == b || ('A' <= a <= 'Z' && a as int + 32 == b as int)
  }

  predicate SpellsOut(typed: string, address: string) {
    |typed| == |address| && forall i :: 0 <= i < |typed| ==> SameButForCase(typed[i], address[i])
  }

  lemma WalletIsAddress(s: string)
    ensures IsAddress(s) <==> IsWallet(s)
  {
    if |s| == 42 {
      assert s[..2] == "0x" <==> s[0] == '0' && s[1] == 'x';
    }
  }

  // A wallet can be typed with capitals and with spaces around it, and only so.
  lemma WalletExactly(typed: string, address: string)
    ensures NormalizeAddress(typed) == Some(address) <==> IsWallet(address) && SpellsOut(Trim(typed), address)
  {
    WalletIsAddress(address);
    var bare := Trim(typed);
    var lower := LowerAll(bare);
    if IsWallet(address) && SpellsOut(bare, address) {
      assert forall i :: 0 <= i < |bare| ==> Lower(bare[i]) == address[i] by {
        forall i | 0 <= i < |bare| ensures Lower(bare[i]) == address[i] {
          assert SameButForCase(bare[i], address[i]);
          assert i < 2 ==> address[i] == "0x"[i] by { assert address[..2][0] == '0' && address[..2][1] == 'x'; }
        }
      }
      assert lower == address;
      assert "0x" <= address;
      assert forall i :: 0 <= i < 40 ==> IsHex(address[2..][i]);
    }
    if NormalizeAddress(typed) == Some(address) {
      assert lower == address;
      forall i | 0 <= i < |bare| ensures SameButForCase(bare[i], address[i]) {
        assert address[i] == Lower(bare[i]);
      }
    }
  }

  // ---- Names on the list ----------------------------------------------

  predicate Prefixed(id: string, prefix: string) { |prefix| <= |id| && id[..|prefix|] == prefix }

  // A name the list keeps is a number, one after `binance:`, or a wallet after its
  // venue's name, and nothing else is.
  predicate IsName(id: string) {
    || IsNumber(id)
    || (Prefixed(id, "binance:") && IsNumber(id[8..]))
    || (Prefixed(id, "hyperliquid:") && IsWallet(id[12..]))
    || (Prefixed(id, "aster:") && IsWallet(id[6..]))
  }

  lemma NumberIsKnown(uid: string)
    requires IsNumber(uid)
    ensures KnownId(uid) && KnownId("binance:" + uid)
  {
    assert IsUid(uid);
    UidIsItself(uid);
    WrittenIdsAreKnown(uid, "");
    assert LiveUid(uid) == Some(uid) && BinanceId(uid) == Some("binance:" + uid);
  }

  lemma WalletIsKnown(address: string)
    requires IsWallet(address)
    ensures KnownId("hyperliquid:" + address) && KnownId("aster:" + address)
  {
    hide NormalizeAddress, KnownId;
    WalletIsAddress(address);
    AddressIsItself(address);
    WrittenIdsAreKnown("", address);
  }

  lemma UidIsNumber(uid: string)
    requires UidAccount(uid).Some?
    ensures IsNumber(UidAccount(uid).value.1)
  {
  }

  lemma WalletOf(id: string, venue: Venue, address: string)
    requires WalletId(venue, address) == Some(id)
    ensures IsName(id)
  {
    hide NormalizeAddress;
    var whole := NormalizeAddress(address).value;
    WalletIsAddress(whole);
    if venue == Hyperliquid {
      assert id == "hyperliquid:" + whole && id[..12] == "hyperliquid:" && id[12..] == whole;
    } else {
      assert id == "aster:" + whole && id[..6] == "aster:" && id[6..] == whole;
    }
  }

  lemma KnownExactly(id: string)
    ensures KnownId(id) <==> IsName(id)
  {
    if IsName(id) {
      NamesAreKnown(id);
    }
    if KnownId(id) {
      KnownAreNames(id);
    }
  }

  lemma NamesAreKnown(id: string)
    requires IsName(id)
    ensures KnownId(id)
  {
    hide KnownId, IsWallet, IsNumber;
    if IsNumber(id) {
      NumberIsKnown(id);
    } else if Prefixed(id, "binance:") && IsNumber(id[8..]) {
      NumberIsKnown(id[8..]);
      assert id == "binance:" + id[8..];
    } else if Prefixed(id, "hyperliquid:") && IsWallet(id[12..]) {
      WalletIsKnown(id[12..]);
      assert id == "hyperliquid:" + id[12..];
    } else {
      WalletIsKnown(id[6..]);
      assert id == "aster:" + id[6..];
    }
  }

  lemma KnownAreNames(id: string)
    requires KnownId(id)
    ensures IsName(id)
  {
    hide Trim, UidAccount, NormalizeAddress, IsWallet, IsNumber;
    if LiveUid(id) == Some(id) {
      UidIsNumber(Trim(id));
    } else if (var uid := StripPrefix(id, "binance:"); uid.Some? && BinanceId(uid.value) == Some(id)) {
      var uid := StripPrefix(id, "binance:").value;
      UidIsNumber(Trim(uid));
      assert id[8..] == UidAccount(Trim(uid)).value.1;
    } else {
      var parts := SplitOnce(id, ':').value;
      if WalletId(Hyperliquid, parts.1) == Some(id) {
        WalletOf(id, Hyperliquid, parts.1);
      } else {
        WalletOf(id, Aster, parts.1);
      }
    }
  }

  // Who is on is who a list in the file has, of the names it can; a file that is gone,
  // or is no list, has nobody.
  lemma OnExactly(shared: Gate.Shared, id: string)
    ensures id in Gate.InForce(shared)
            <==> shared.file.Some? && shared.file.value.bytes.Listing? && id in shared.file.value.bytes.ids && IsName(id)
  {
    KnownExactly(id);
  }

  // ---- Lock files -----------------------------------------------------

  // A lock file is named by its account's spelling, where every character that is no
  // letter, digit or hyphen stands as an underscore.
  lemma LockFileIs(venue: Venue, account: string, i: nat)
    requires i < |account|
    ensures var file, at, c := LockName(venue, account), |VenueName(venue)| + 1 + i, account[i];
            && |file| == |VenueName(venue)| + |account| + 6
            && file[at] == if '0' <= c <= '9' || 'a' <= c <= 'z' || 'A' <= c <= 'Z' || c == '-' then c else '_'
  {
  }

  // ---- Client order ids -----------------------------------------------

  function HexValue(s: string): nat
    requires forall i :: 0 <= i < |s| ==> '0' <= s[i] <= '9' || 'a' <= s[i] <= 'f'
  {
    if s == [] then 0
    else
      var c := s[|s| - 1];
      16 * HexValue(s[..|s| - 1]) + if c <= '9' then c as int - '0' as int else c as int - 'a' as int + 10
  }

  // An id's digits read back as the numbers it was made of.
  lemma {:induction false} HexReadsBack(n: nat, width: nat)
    requires n < Pow16(width)
    ensures var s := Hex(n, width);
            (forall i :: 0 <= i < |s| ==> '0' <= s[i] <= '9' || 'a' <= s[i] <= 'f') && HexValue(s) == n
  {
    if width > 0 {
      HexReadsBack(n / 16, width - 1);
      var s := Hex(n, width);
      assert s[..width - 1] == Hex(n / 16, width - 1);
    }
  }

  lemma ClientIdReadsBack(engineId: nat, command: nat)
    requires engineId < U64 && command < U64
    ensures var id := ClientId(engineId, command);
            && |id| == 34 && id[..2] == "0x"
            && (forall i :: 2 <= i < 34 ==> '0' <= id[i] <= '9' || 'a' <= id[i] <= 'f')
            && HexValue(id[2..18]) == engineId && HexValue(id[18..]) == command
  {
    hide HexValue, Hex;
    SixteenDigits();
    HexReadsBack(engineId, 16);
    HexReadsBack(command, 16);
    var id := ClientId(engineId, command);
    assert id[2..18] == Hex(engineId, 16) && id[18..] == Hex(command, 16);
    assert forall i :: 2 <= i < 18 ==> id[i] == id[2..18][i - 2];
    assert forall i :: 18 <= i < 34 ==> id[i] == id[18..][i - 18];
  }
}
