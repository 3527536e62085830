// Which accounts are let through, and the address and key each trades with.
module Trading {
  import opened Accounts
  import opened Basics
  import opened Text

  datatype Trader = Trader(address: string, key: string)
  datatype Refusal = NoSuchAccount | SwitchedOff | NotAvailable

  function KeyEntry(venue: Venue, address: string): string { VenueName(venue) + ":" + address }

  // `on` is the list of live accounts switched on.
  function TraderFor(venue: Venue, account: string, on: set<string>): Result<Trader, Refusal> {
    match venue
    case Bybit =>
      (match UidAccount(account)
       case None => Err(NoSuchAccount)
       case Some((demo, uid)) =>
         if !demo && uid !in on then Err(SwitchedOff)
         else Ok(Trader(account, KeyEntry(venue, account))))
    case Binance =>
      (match UidAccount(account)
       case None => Err(NoSuchAccount)
       case Some((demo, _)) =>
         if demo then Ok(Trader(account, KeyEntry(venue, account)))
         else
           match BinanceId(account)
           case None => Err(NoSuchAccount)
           case Some(id) =>
             if id !in on then Err(SwitchedOff) else Ok(Trader(account, KeyEntry(venue, account))))
    case Blofin =>
      (match UidAccount(account)
       case None => Err(NoSuchAccount)
       case Some((demo, _)) =>
         if !demo then Err(NotAvailable) else Ok(Trader(account, KeyEntry(venue, account))))
    case _ =>
      match NormalizeAddress(account)
      case None => Err(NoSuchAccount)
      case Some(address) =>
        match WalletId(venue, address)
        case None => Err(NoSuchAccount)
        case Some(id) =>
          if id !in on then Err(SwitchedOff) else Ok(Trader(address, KeyEntry(venue, address)))
  }

  // ---- What is let through --------------------------------------------

  // An account as its venue knows it, however it was spelled.
  datatype Known = Known(venue: Venue, demo: bool, id: string)

  function Identity(venue: Venue, account: string): Option<Known> {
    if venue == Hyperliquid || venue == Aster then
      match NormalizeAddress(account)
      case Some(address) => Some(Known(venue, false, address))
      case None => None
    else
      match UidAccount(account)
      case Some((demo, uid)) => Some(Known(venue, demo, uid))
      case None => None
  }

  // The one name on the list that lets a live account through.
  function SwitchOf(known: Known): string {
    match known.venue
    case Bybit => known.id
    case _ => VenueName(known.venue) + ":" + known.id
  }

  // Demo funds trade at once; real funds only under their own name on the
  // list, and on BloFin never.
  lemma TradesExactlyWhenSwitchedOn(venue: Venue, account: string, on: set<string>)
    ensures TraderFor(venue, account, on).Ok? <==>
      match Identity(venue, account)
      case None => false
      case Some(known) => known.demo || (venue != Blofin && SwitchOf(known) in on)
  {
    hide NormalizeAddress;
    match venue
    case Binance =>
      if UidAccount(account).Some? && !UidAccount(account).value.0 {
        UidIsItself(account);
        assert "binance:" == VenueName(venue) + ":";
      }
    case Hyperliquid =>
      assert "hyperliquid:" == VenueName(venue) + ":";
      if NormalizeAddress(account).Some? {
        AddressIsItself(NormalizeAddress(account).value);
      }
    case Aster =>
      assert "aster:" == VenueName(venue) + ":";
      if NormalizeAddress(account).Some? {
        AddressIsItself(NormalizeAddress(account).value);
      }
    case _ =>
  }

  // What one that isn't let through is told: that it is no account of the venue's,
  // that the venue has no live trading, or that it is switched off.
  lemma ToldWhy(venue: Venue, account: string, on: set<string>)
    requires TraderFor(venue, account, on).Err?
    ensures TraderFor(venue, account, on).error
            == if Identity(venue, account).None? then NoSuchAccount
               else if venue == Blofin then NotAvailable else SwitchedOff
  {
    hide NormalizeAddress;
    match venue
    case Binance =>
      if UidAccount(account).Some? && !UidAccount(account).value.0 {
        UidIsItself(account);
      }
    case Hyperliquid =>
      assert NormalizeAddress(account).Some? ==> WalletId(venue, NormalizeAddress(account).value).Some? by {
        if NormalizeAddress(account).Some? { AddressIsItself(NormalizeAddress(account).value); }
      }
    case Aster =>
      assert NormalizeAddress(account).Some? ==> WalletId(venue, NormalizeAddress(account).value).Some? by {
        if NormalizeAddress(account).Some? { AddressIsItself(NormalizeAddress(account).value); }
      }
    case _ =>
  }

  lemma VenueNamesHaveNoColon(venue: Venue)
    ensures ':' !in VenueName(venue) && !IsDigit(VenueName(venue)[0])
  {
  }

  // No name lets two accounts through: not another venue's of the same
  // number, nor another wallet's.
  lemma SwitchesAreOwn(v: Venue, a: string, w: Venue, b: string)
    requires Identity(v, a).Some? && Identity(w, b).Some?
    requires !Identity(v, a).value.demo && !Identity(w, b).value.demo
    ensures SwitchOf(Identity(v, a).value) == SwitchOf(Identity(w, b).value)
            <==> Identity(v, a) == Identity(w, b)
  {
    hide NormalizeAddress;
    var k, l := Identity(v, a).value, Identity(w, b).value;
    if SwitchOf(k) == SwitchOf(l) {
      SwitchIsNamed(k);
      SwitchIsNamed(l);
      NamesDiffer(v, w);
    }
  }

  // What a name on the list splits into.
  lemma SwitchIsNamed(known: Known)
    requires known.venue == Bybit ==> ':' !in known.id
    ensures known.venue == Bybit ==> SplitOnce(SwitchOf(known), ':') == None
    ensures known.venue != Bybit ==>
      SplitOnce(SwitchOf(known), ':') == Some((VenueName(known.venue), known.id))
  {
    VenueNamesHaveNoColon(known.venue);
    if known.venue != Bybit {
      SplitAtFirst(VenueName(known.venue), known.id);
      assert SwitchOf(known) == VenueName(known.venue) + [':'] + known.id;
    }
  }

  lemma NamesDiffer(v: Venue, w: Venue)
    ensures VenueName(v) == VenueName(w) <==> v == w
  {
    assert VenueName(v)[0] == VenueName(w)[0] && VenueName(v)[1] == VenueName(w)[1] ==> v == w;
  }

  function AddressOf(known: Known): string { if known.demo then "demo:" + known.id else known.id }

  // A trader has its account's own address and key, and the address tells the
  // account.
  lemma TraderIs(venue: Venue, account: string, on: set<string>)
    requires TraderFor(venue, account, on).Ok?
    ensures Identity(venue, account).Some?
    ensures var known := Identity(venue, account).value;
            && TraderFor(venue, account, on).value == Trader(AddressOf(known), KeyEntry(venue, AddressOf(known)))
            && known.venue == venue && Identity(venue, AddressOf(known)) == Some(known)
  {
    hide NormalizeAddress;
    if venue == Hyperliquid || venue == Aster {
      AddressIsItself(NormalizeAddress(account).value);
    } else {
      AddressTells(account);
    }
  }

  // A numbered account's spelling is given back by what it is.
  lemma AddressTells(account: string)
    ensures match UidAccount(account)
      case None => true
      case Some((demo, uid)) => account == if demo then "demo:" + uid else uid
  {
  }

  lemma KeyEntryTells(v: Venue, x: string, w: Venue, y: string)
    ensures KeyEntry(v, x) == KeyEntry(w, y) <==> v == w && x == y
  {
    NamesDiffer(v, w);
    VenueNamesHaveNoColon(v);
    VenueNamesHaveNoColon(w);
    SplitAtFirst(VenueName(v), x);
    SplitAtFirst(VenueName(w), y);
    assert KeyEntry(v, x) == VenueName(v) + [':'] + x;
    assert KeyEntry(w, y) == VenueName(w) + [':'] + y;
  }

  // The key is the stored one of that account: no two accounts are given the
  // same, and every spelling of a wallet is given the same.
  lemma KeysAreOwn(v: Venue, a: string, w: Venue, b: string, on: set<string>)
    requires TraderFor(v, a, on).Ok? && TraderFor(w, b, on).Ok?
    ensures TraderFor(v, a, on).value.key == TraderFor(w, b, on).value.key
            <==> Identity(v, a) == Identity(w, b)
  {
    hide TraderFor, Identity, KeyEntry, AddressOf;
    TraderIs(v, a, on);
    TraderIs(w, b, on);
    KeyEntryTells(v, AddressOf(Identity(v, a).value), w, AddressOf(Identity(w, b).value));
  }

  // ---- Spellings ------------------------------------------------------

  // A numbered account can be spelled one way.
  lemma SpelledOnce(v: Venue, a: string, u: Venue, b: string)
    requires v != Hyperliquid && v != Aster
    requires Identity(v, a).Some? && Identity(v, a) == Identity(u, b)
    ensures v == u && a == b
  {
    AddressTells(a);
    AddressTells(b);
  }

  // A wallet can be spelled more ways than one, and a lock file tells them
  // apart.
  lemma WalletSpellings(venue: Venue, account: string)
    requires (venue == Hyperliquid || venue == Aster) && Identity(venue, account).Some?
    ensures var known := Identity(venue, account).value;
            && Identity(venue, known.id) == Identity(venue, " " + known.id) == Some(known)
            && SafeAll(known.id) != SafeAll(" " + known.id)
  {
    var address := NormalizeAddress(account).value;
    AddressIsItself(address);
    SpaceIsTrimmed(address);
    assert |SafeAll(address)| != |SafeAll(" " + address)|;
  }
}
