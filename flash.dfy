/** The flash copy of the configuration (flash_fs.cpp), kept in the ESP32's
    non-volatile storage through the Preferences library. Each namespace is a map from
    keys to strings; the players and favourites namespaces hold one record per key
    "0", "1", ..., in the same "|"-separated formats as the SD files.

    What the hardware decides is a parameter: `began` is whether `prefs.begin`
    succeeded, and `accept(k)` whether the k-th put of one call found room. */
module Flash {
  import opened Types
  import opened Strings
  import SdCard

  /** The Preferences namespaces. */
  const NvsWifi := "wifi"
  const NvsPlayers := "players"
  const NvsFavs := "favs"
  const NvsCurMpd := "curmpd"

  /** getUShort's default in read_player_index: "no index stored". */
  const NoIndex: nat := 999

  /** Preferences::getString: the stored string, or "" when the key is missing. */
  function Get(m: map<string, string>, key: string): string
  {
    if key in m then m[key] else ""
  }

  // ---------------------------------------------------------------------------
  // Numbered records: keys "0", "1", ... in order
  // ---------------------------------------------------------------------------

  /** The namespace after clear() and the puts of records[0..n) under their numbers. */
  function Stored(records: seq<string>, n: nat): map<string, string>
    requires n <= |records|
  {
    if n == 0 then map[] else Stored(records, n - 1)[Key(n - 1) := records[n - 1]]
  }

  /** The number of puts that succeed before the first refused one, starting at k. */
  function Written(accept: nat -> bool, k: nat, n: nat): (w: nat)
    ensures k <= n ==> k <= w <= n
    decreases n - k
  {
    if k >= n || !accept(k) then k else Written(accept, k + 1, n)
  }

  /** The key `std::to_string(i)` under which record i is stored. */
  function Key(i: nat): string
  {
    NatToString(i)
  }

  lemma NatToStringDistinct(a: nat, b: nat)
    requires a != b
    ensures Key(a) != Key(b)
  {
    if Key(a) == Key(b) {
      NatToStringInjective(a, b);
    }
  }

  /** Keys "0" .. "n-1" are n distinct strings, so a key set holding them all has at
      least n elements. */
  lemma {:induction false} KeysBound(keys: set<string>, n: nat)
    requires forall j :: 0 <= j < n ==> Key(j) in keys
    ensures n <= |keys|
    decreases n
  {
    if n > 0 {
      var k := Key(n - 1);
      var rest := keys - {k};
      forall j | 0 <= j < n - 1
        ensures Key(j) in rest
      {
        NatToStringDistinct(j, n - 1);
      }
      KeysBound(rest, n - 1);
      assert keys == rest + {k};
    }
  }

  /** The values read at keys i, i+1, ... up to the first key whose value is empty or
      missing. */
  function StoredRecords(m: map<string, string>, i: nat): (rs: seq<string>)
    requires forall j :: 0 <= j < i ==> Key(j) in m
    ensures forall k :: 0 <= k < |rs| ==> rs[k] != ""
    decreases |m| - i
  {
    var key := Key(i);
    if Get(m, key) == "" then []
    else
      KeysBound(m.Keys, i + 1);
      [m[key]] + StoredRecords(m, i + 1)
  }

  /** One step of the read loop: a non-empty value at key i is the next record. */
  lemma StoredRecordsStep(m: map<string, string>, i: nat)
    requires forall j :: 0 <= j < i ==> Key(j) in m
    requires Get(m, Key(i)) != ""
    ensures i + 1 <= |m| && Key(i) in m
    ensures forall j :: 0 <= j < i + 1 ==> Key(j) in m
    ensures StoredRecords(m, i) == [m[Key(i)]] + StoredRecords(m, i + 1)
  {
    KeysBound(m.Keys, i + 1);
  }

  /** After n puts, key j < n holds record j and no key from n on is present. */
  lemma {:induction false} StoredLookup(records: seq<string>, n: nat)
    requires n <= |records|
    ensures forall j :: 0 <= j < n ==> Key(j) in Stored(records, n) && Stored(records, n)[Key(j)] == records[j]
    ensures forall j :: n <= j ==> Key(j) !in Stored(records, n)
  {
    if n > 0 {
      StoredLookup(records, n - 1);
      forall j | 0 <= j < n - 1
        ensures Key(j) != Key(n - 1)
      {
        NatToStringDistinct(j, n - 1);
      }
      forall j | n <= j
        ensures Key(j) != Key(n - 1)
      {
        NatToStringDistinct(j, n - 1);
      }
    }
  }

  /** Reading back n non-empty records yields them in order. */
  lemma {:induction false} ReadBackFrom(m: map<string, string>, records: seq<string>, n: nat, i: nat)
    requires i <= n <= |records|
    requires forall k :: 0 <= k < |records| ==> records[k] != ""
    requires forall j :: 0 <= j < n ==> Key(j) in m && m[Key(j)] == records[j]
    requires Key(n) !in m
    ensures StoredRecords(m, i) == records[i..n]
    decreases n - i
  {
    if i < n {
      ReadBackFrom(m, records, n, i + 1);
      assert records[i..n] == [records[i]] + records[i + 1..n];
    }
  }

  /** Reading back n non-empty records yields them in order. */
  lemma ReadBackStored(records: seq<string>, n: nat)
    requires n <= |records|
    requires forall k :: 0 <= k < |records| ==> records[k] != ""
    ensures StoredRecords(Stored(records, n), 0) == records[..n]
  {
    StoredLookup(records, n);
    ReadBackFrom(Stored(records, n), records, n, 0);
  }

  /** The loop shared by write_players and write_favourites: after clear(), put
      records[i] under key to_string(i) until a put is refused. Answers the store and
      the number of records written. */
  method StoreRecords(records: seq<string>, accept: nat -> bool) returns (m: map<string, string>, count: nat)
    requires forall k :: 0 <= k < |records| ==> records[k] != ""
    ensures count == Written(accept, 0, |records|)
    ensures m == Stored(records, count)
  {
    m := map[];
    count := 0;
    while count < |records|
      invariant count <= |records|
      invariant m == Stored(records, count)
      invariant Written(accept, count, |records|) == Written(accept, 0, |records|)
    {
      var key := Key(count);
      var data := records[count];
      var putResult := if accept(count) then |data| else 0;
      if putResult == 0 {
        break;
      }
      m := m[key := data];
      count := count + 1;
    }
  }

  // ---------------------------------------------------------------------------
  // Player and favourite records
  // ---------------------------------------------------------------------------

  /** `String(NULL)` is the empty string. */
  function IpText(ip: Option<string>): string
  {
    if ip.Some? then ip.value else ""
  }

  /** The record write_players stores for one player; the hostname is not saved. */
  function PlayerData(p: Player): (s: string)
    ensures s != []
  {
    SdCard.PlayerRecord(p.name, IpText(p.ip), p.port)
  }

  function PlayerRecords(ps: seq<Player>): (rs: seq<string>)
    ensures |rs| == |ps| && forall k :: 0 <= k < |rs| ==> rs[k] != ""
  {
    if ps == [] then [] else [PlayerData(ps[0])] + PlayerRecords(ps[1..])
  }

  function FavouriteData(f: Favourite): (s: string)
    ensures s != []
  {
    SdCard.FavouriteRecord(f.name, f.url)
  }

  function FavouriteRecords(fs: seq<Favourite>): (rs: seq<string>)
    ensures |rs| == |fs| && forall k :: 0 <= k < |rs| ==> rs[k] != ""
  {
    if fs == [] then [] else [FavouriteData(fs[0])] + FavouriteRecords(fs[1..])
  }

  lemma {:induction false} FavouriteRecordsPrefix(fs: seq<Favourite>, n: nat)
    requires n <= |fs|
    ensures FavouriteRecords(fs)[..n] == FavouriteRecords(fs[..n])
  {
    if n > 0 {
      FavouriteRecordsPrefix(fs[1..], n - 1);
      assert fs[..n][1..] == fs[1..][..n - 1];
    }
  }

  /** The records of the first n players are the first n records. */
  lemma {:induction false} PlayerRecordsPrefix(ps: seq<Player>, n: nat)
    requires n <= |ps|
    ensures PlayerRecords(ps)[..n] == PlayerRecords(ps[..n])
  {
    if n > 0 {
      PlayerRecordsPrefix(ps[1..], n - 1);
      assert ps[..n][1..] == ps[1..][..n - 1];
    }
  }

  /** read_players' verdict on one stored record: no trimming, exactly three fields,
      and a port stoi accepts. */
  function StoredPlayer(rec: string): (r: SdCard.PlayerLine)
    ensures r.PlayerEntry? ==> r.player.ip.Some? && r.player.hostname.None?
  {
    var parts := Tokens(rec, '|');
    if |parts| != 3 then SdCard.SkipLine
    else
      match Stoi(parts[2])
      case None => SdCard.BadPort
      case Some(port) => SdCard.PlayerEntry(Player(parts[0], None, Some(parts[1]), port))
  }

  function StoredPlayerVerdicts(recs: seq<string>): (vs: seq<SdCard.PlayerLine>)
    ensures |vs| == |recs|
  {
    if recs == [] then [] else [StoredPlayer(recs[0])] + StoredPlayerVerdicts(recs[1..])
  }

  /** The list after the verdicts are applied (no cap), or None when stoi throws. */
  function AppendPlayers(vs: seq<SdCard.PlayerLine>, list: seq<Player>): Option<seq<Player>>
  {
    if vs == [] then Some(list)
    else
      match vs[0]
      case SkipLine => AppendPlayers(vs[1..], list)
      case BadPort => None
      case PlayerEntry(p) => AppendPlayers(vs[1..], list + [p])
  }

  /** read_players on an opened namespace: its answer is whether key "0" held
      anything, however many records were usable. */
  function ReadPlayersSpec(m: map<string, string>, list: seq<Player>): SdCard.Load<seq<Player>>
  {
    var recs := StoredRecords(m, 0);
    match AppendPlayers(StoredPlayerVerdicts(recs), list)
    case None => SdCard.Threw
    case Some(l) => SdCard.Load(|recs| > 0, l)
  }

  function StoredFavourite(rec: string): Option<Favourite>
  {
    var parts := Tokens(rec, '|');
    if |parts| == 2 then Some(Favourite(parts[0], parts[1])) else None
  }

  function StoredFavouriteVerdicts(recs: seq<string>): (vs: seq<Option<Favourite>>)
    ensures |vs| == |recs|
  {
    if recs == [] then [] else [StoredFavourite(recs[0])] + StoredFavouriteVerdicts(recs[1..])
  }

  function ReadFavouritesSpec(m: map<string, string>, list: seq<Favourite>): (bool, seq<Favourite>)
  {
    var recs := StoredRecords(m, 0);
    (|recs| > 0, list + SdCard.AcceptedFavourites(StoredFavouriteVerdicts(recs)))
  }

  /** Without a bad port the players of the accepted records are appended in order. */
  lemma {:induction false} AppendAccepted(vs: seq<SdCard.PlayerLine>, list: seq<Player>)
    requires SdCard.NoBadPort(vs)
    ensures AppendPlayers(vs, list) == Some(list + SdCard.AcceptedPlayers(vs))
    decreases |vs|
  {
    if vs == [] {
      assert list + [] == list;
    } else {
      SdCard.NoBadPortTail(vs);
      if vs[0].SkipLine? {
        AppendAccepted(vs[1..], list);
      } else {
        AppendAccepted(vs[1..], list + [vs[0].player]);
        assert list + [vs[0].player] + SdCard.AcceptedPlayers(vs[1..]) == list + ([vs[0].player] + SdCard.AcceptedPlayers(vs[1..]));
      }
    }
  }

  /** A record of a player with a non-empty '|'-free name and ip and an int port reads
      back as that player. */
  lemma StoredPlayerRecord(p: Player)
    requires SdCard.CleanPlayer(p)
    ensures StoredPlayer(PlayerData(p)) == SdCard.PlayerEntry(p)
  {
    var ps := IntToString(p.port);
    SplitJoin([p.name, p.ip.value, ps], '|');
    StoiIntToString(p.port);
  }

  lemma StoredFavouriteRecord(f: Favourite)
    requires SdCard.CleanFavourite(f)
    ensures StoredFavourite(FavouriteData(f)) == Some(f)
  {
    SplitJoin([f.name, f.url], '|');
  }

  lemma {:induction false} StoredPlayersAccepted(ps: seq<Player>)
    requires forall k :: 0 <= k < |ps| ==> SdCard.CleanPlayer(ps[k])
    ensures var vs := StoredPlayerVerdicts(PlayerRecords(ps));
      SdCard.NoBadPort(vs) && SdCard.AcceptedPlayers(vs) == ps
    decreases |ps|
  {
    var vs := StoredPlayerVerdicts(PlayerRecords(ps));
    if ps != [] {
      StoredPlayersAccepted(ps[1..]);
      StoredPlayerRecord(ps[0]);
      assert vs == [SdCard.PlayerEntry(ps[0])] + StoredPlayerVerdicts(PlayerRecords(ps[1..]));
      assert ps == [ps[0]] + ps[1..];
    }
  }

  lemma {:induction false} StoredFavouritesAccepted(fs: seq<Favourite>)
    requires forall k :: 0 <= k < |fs| ==> SdCard.CleanFavourite(fs[k])
    ensures SdCard.AcceptedFavourites(StoredFavouriteVerdicts(FavouriteRecords(fs))) == fs
    decreases |fs|
  {
    if fs != [] {
      StoredFavouritesAccepted(fs[1..]);
      StoredFavouriteRecord(fs[0]);
      assert fs == [fs[0]] + fs[1..];
    }
  }

  lemma ReadPlayersOf(m: map<string, string>, recs: seq<string>, ps: seq<Player>, list: seq<Player>)
    requires StoredRecords(m, 0) == recs
    requires SdCard.NoBadPort(StoredPlayerVerdicts(recs)) && SdCard.AcceptedPlayers(StoredPlayerVerdicts(recs)) == ps
    ensures ReadPlayersSpec(m, list) == SdCard.Load(|recs| > 0, list + ps)
  {
    AppendAccepted(StoredPlayerVerdicts(recs), list);
  }

  /** Round trip: after write_players stored the first n players (all of them when
      every put was accepted), read_players appends exactly those players to the
      caller's list and answers true exactly when there was one. */
  lemma PlayersRoundTrip(ps: seq<Player>, n: nat, list: seq<Player>)
    requires n <= |ps|
    requires forall k :: 0 <= k < |ps| ==> SdCard.CleanPlayer(ps[k])
    ensures ReadPlayersSpec(Stored(PlayerRecords(ps), n), list) == SdCard.Load(n > 0, list + ps[..n])
  {
    var recs := PlayerRecords(ps);
    var front := ps[..n];
    var prefix := PlayerRecords(front);
    assert StoredRecords(Stored(recs, n), 0) == prefix by {
      ReadBackStored(recs, n);
      PlayerRecordsPrefix(ps, n);
    }
    assert forall k :: 0 <= k < |front| ==> SdCard.CleanPlayer(front[k]);
    StoredPlayersAccepted(front);
    ReadPlayersOf(Stored(recs, n), prefix, front, list);
  }

  /** Round trip for favourites with non-empty '|'-free names and urls, after the
      first n were stored. */
  lemma FavouritesRoundTrip(fs: seq<Favourite>, n: nat, list: seq<Favourite>)
    requires n <= |fs|
    requires forall k :: 0 <= k < |fs| ==> SdCard.CleanFavourite(fs[k])
    ensures ReadFavouritesSpec(Stored(FavouriteRecords(fs), n), list) == (n > 0, list + fs[..n])
  {
    var recs := FavouriteRecords(fs);
    var front := fs[..n];
    assert StoredRecords(Stored(recs, n), 0) == FavouriteRecords(front) by {
      ReadBackStored(recs, n);
      FavouriteRecordsPrefix(fs, n);
    }
    assert forall k :: 0 <= k < |front| ==> SdCard.CleanFavourite(front[k]);
    StoredFavouritesAccepted(front);
  }

  // ---------------------------------------------------------------------------
  // Wifi record: four keys
  // ---------------------------------------------------------------------------

  function Keep(m: map<string, string>, key: string, value: string, ok: bool): map<string, string>
  {
    if ok then m[key := value] else m
  }

  /** The wifi namespace after clear() and the four puts. */
  function WifiStore(cfg: NetworkCfg, accept: nat -> bool): map<string, string>
  {
    Keep(Keep(Keep(Keep(map[], "ssid", cfg.ssid, accept(0)), "psw", cfg.psw, accept(1)),
      "ntp_server", cfg.ntpServer, accept(2)), "tz", cfg.tz, accept(3))
  }

  /** read_wifi on an opened namespace: the configuration when all four values are
      non-empty. */
  function StoredWifi(m: map<string, string>): (r: Option<NetworkCfg>)
    ensures r.Some? <==> Get(m, "ssid") != "" && Get(m, "psw") != "" && Get(m, "ntp_server") != "" && Get(m, "tz") != ""
  {
    var ssid := Get(m, "ssid");
    var psw := Get(m, "psw");
    var ntp := Get(m, "ntp_server");
    var tz := Get(m, "tz");
    if ssid == "" || psw == "" then None
    else if ntp == "" || tz == "" then None
    else Some(NetworkCfg(ssid, psw, ntp, tz))
  }

  /** Round trip: when all four puts are accepted, read_wifi gets the configuration
      back exactly when all four fields are non-empty. */
  lemma WifiRoundTrip(cfg: NetworkCfg, accept: nat -> bool)
    requires accept(0) && accept(1) && accept(2) && accept(3)
    ensures StoredWifi(WifiStore(cfg, accept)).Some?
        <==> cfg.ssid != "" && cfg.psw != "" && cfg.ntpServer != "" && cfg.tz != ""
    ensures StoredWifi(WifiStore(cfg, accept)).Some? ==> StoredWifi(WifiStore(cfg, accept)).value == cfg
  {
    var m := WifiStore(cfg, accept);
    assert m == map["ssid" := cfg.ssid, "psw" := cfg.psw, "ntp_server" := cfg.ntpServer, "tz" := cfg.tz];
  }

  /** When every put is accepted, all n records are written. */
  lemma {:induction false} WrittenAll(accept: nat -> bool, k: nat, n: nat)
    requires k <= n
    requires forall j :: k <= j < n ==> accept(j)
    ensures Written(accept, k, n) == n
    decreases n - k
  {
    if k < n {
      WrittenAll(accept, k + 1, n);
    }
  }

  // ---------------------------------------------------------------------------
  // The store
  // ---------------------------------------------------------------------------

  /** The contents of the four namespaces, as a value. */
  datatype Store = Store(wifi: map<string, string>, players: map<string, string>,
                         favs: map<string, string>, curMpd: Option<nat>)

  /** The four Preferences namespaces the firmware uses. */
  class Nvs {
    var wifi: map<string, string>
    var players: map<string, string>
    var favs: map<string, string>
    /** Key "cur_mpd" of namespace "curmpd", a uint16. */
    var curMpd: Option<nat>

    predicate Valid()
      reads this
    {
      curMpd.Some? ==> curMpd.value < U16
    }

    function Contents(): Store
      reads this
    {
      Store(wifi, players, favs, curMpd)
    }

    constructor ()
      ensures Valid()
      ensures wifi == map[] && players == map[] && favs == map[] && curMpd == None
    {
      wifi := map[];
      players := map[];
      favs := map[];
      curMpd := None;
    }

    /** write_wifi. Each put overwrites `result`, so the answer reflects the "tz" put
        alone; putString answers the length written, so an empty tz reads as failure. */
    method WriteWifi(cfg: NetworkCfg, began: bool, accept: nat -> bool) returns (result: bool)
      modifies this
      ensures !began ==> !result && unchanged(this)
      ensures began ==> wifi == WifiStore(cfg, accept)
      ensures began ==> (result <==> accept(3) && cfg.tz != "")
      ensures players == old(players) && favs == old(favs) && curMpd == old(curMpd)
    {
      result := false;
      if !began {
        return;
      }
      wifi := map[];
      result := true;
      result := PutResult(accept(0), cfg.ssid) > 0;
      wifi := Keep(wifi, "ssid", cfg.ssid, accept(0));
      result := PutResult(accept(1), cfg.psw) > 0;
      wifi := Keep(wifi, "psw", cfg.psw, accept(1));
      result := PutResult(accept(2), cfg.ntpServer) > 0;
      wifi := Keep(wifi, "ntp_server", cfg.ntpServer, accept(2));
      result := PutResult(accept(3), cfg.tz) > 0;
      wifi := Keep(wifi, "tz", cfg.tz, accept(3));
    }

    /** read_wifi: all four values must be non-empty, else the configuration is left
        as it was. */
    method ReadWifi(cfg: NetworkCfg, began: bool) returns (result: bool, nwCfg: NetworkCfg)
      ensures result <==> began && StoredWifi(wifi).Some?
      ensures result ==> nwCfg == StoredWifi(wifi).value
      ensures !result ==> nwCfg == cfg
      ensures result ==> nwCfg.ssid != "" && nwCfg.psw != "" && nwCfg.ntpServer != "" && nwCfg.tz != ""
    {
      nwCfg := cfg;
      if !began {
        return false, cfg;
      }
      var ssid := Get(wifi, "ssid");
      var psw := Get(wifi, "psw");
      var ntp := Get(wifi, "ntp_server");
      var tz := Get(wifi, "tz");
      if ssid == "" || psw == "" {
        return false, cfg;
      }
      if ntp == "" || tz == "" {
        return false, cfg;
      }
      return true, NetworkCfg(ssid, psw, ntp, tz);
    }

    /** write_players: clear, then player i under key to_string(i) until the first
        refused put; what was written before it stays. */
    method WritePlayers(ps: seq<Player>, began: bool, accept: nat -> bool) returns (result: bool)
      modifies this
      ensures !began ==> !result && unchanged(this)
      ensures began ==> players == Stored(PlayerRecords(ps), Written(accept, 0, |ps|))
      ensures began ==> (result <==> Written(accept, 0, |ps|) == |ps|)
      ensures wifi == old(wifi) && favs == old(favs) && curMpd == old(curMpd)
    {
      if !began {
        return false;
      }
      var count;
      players, count := StoreRecords(PlayerRecords(ps), accept);
      result := count == |ps|;
    }

    /** write_favourites: as write_players, with "name|url" records. */
    method WriteFavourites(fs: seq<Favourite>, began: bool, accept: nat -> bool) returns (result: bool)
      modifies this
      ensures !began ==> !result && unchanged(this)
      ensures began ==> favs == Stored(FavouriteRecords(fs), Written(accept, 0, |fs|))
      ensures began ==> (result <==> Written(accept, 0, |fs|) == |fs|)
      ensures wifi == old(wifi) && players == old(players) && curMpd == old(curMpd)
    {
      if !began {
        return false;
      }
      var count;
      favs, count := StoreRecords(FavouriteRecords(fs), accept);
      result := count == |fs|;
    }

    /** read_players: keys "0", "1", ... until the first empty value; records that do
        not split into three fields are skipped, a port stoi rejects throws. */
    method ReadPlayers(list: seq<Player>, began: bool) returns (r: SdCard.Load<seq<Player>>)
      ensures !began ==> r == SdCard.Load(false, list)
      ensures began ==> r == ReadPlayersSpec(players, list)
    {
      if !began {
        return SdCard.Load(false, list);
      }
      var acc := list;
      var i := 0;
      while true
        invariant forall j :: 0 <= j < i ==> Key(j) in players
        invariant i <= |players|
        invariant |StoredRecords(players, 0)| == i + |StoredRecords(players, i)|
        invariant AppendPlayers(StoredPlayerVerdicts(StoredRecords(players, i)), acc)
               == AppendPlayers(StoredPlayerVerdicts(StoredRecords(players, 0)), list)
        decreases |players| - i
      {
        var key := Key(i);
        var pl := Get(players, key);
        if pl == "" {
          break;
        }
        StoredRecordsStep(players, i);
        ghost var rest := StoredRecords(players, i + 1);
        var v := ReadStoredPlayer(pl, rest);
        if v.BadPort? {
          return SdCard.Threw;
        }
        if v.PlayerEntry? {
          acc := acc + [v.player];
        }
        i := i + 1;
      }
      return SdCard.Load(i > 0, acc);
    }

    /** read_favourites: as read_players, with two-field records and no exception. */
    method ReadFavourites(list: seq<Favourite>, began: bool) returns (result: bool, acc: seq<Favourite>)
      ensures !began ==> !result && acc == list
      ensures began ==> (result, acc) == ReadFavouritesSpec(favs, list)
    {
      if !began {
        return false, list;
      }
      acc := list;
      var i := 0;
      while true
        invariant forall j :: 0 <= j < i ==> Key(j) in favs
        invariant i <= |favs|
        invariant |StoredRecords(favs, 0)| == i + |StoredRecords(favs, i)|
        invariant acc + SdCard.AcceptedFavourites(StoredFavouriteVerdicts(StoredRecords(favs, i)))
               == list + SdCard.AcceptedFavourites(StoredFavouriteVerdicts(StoredRecords(favs, 0)))
        decreases |favs| - i
      {
        var key := Key(i);
        var fav := Get(favs, key);
        if fav == "" {
          break;
        }
        StoredRecordsStep(favs, i);
        ghost var rest := StoredRecords(favs, i + 1);
        var f := ReadStoredFavourite(fav, rest);
        if f.Some? {
          assert acc + [f.value] + SdCard.AcceptedFavourites(StoredFavouriteVerdicts(rest))
              == acc + ([f.value] + SdCard.AcceptedFavourites(StoredFavouriteVerdicts(rest)));
          acc := acc + [f.value];
        }
        i := i + 1;
      }
      assert acc + [] == acc;
      result := i > 0;
    }

    /** write_player_index: when the namespace opens, the in-memory index is set (the
        answer) before the uint16 is put. */
    method WritePlayerIndex(newPl: nat, began: bool, accepted: bool) returns (setIndex: Option<nat>)
      requires Valid() && newPl < U16
      modifies this
      ensures Valid()
      ensures !began ==> setIndex.None? && unchanged(this)
      ensures began ==> setIndex == Some(newPl)
      ensures began ==> curMpd == (if accepted then Some(newPl) else old(curMpd))
      ensures wifi == old(wifi) && players == old(players) && favs == old(favs)
    {
      if !began {
        return None;
      }
      setIndex := Some(newPl);
      if accepted {
        curMpd := Some(newPl);
      }
    }

    /** read_player_index. A namespace that cannot be opened read-only means no index
        was ever saved: 0 is written and set, and the answer is true. Otherwise a stored
        value other than the default 999 is set; the default answers false and sets
        nothing. */
    method ReadPlayerIndex(openRead: bool, openWrite: bool, accepted: bool) returns (result: bool, setIndex: Option<nat>)
      requires Valid()
      modifies this
      ensures Valid()
      ensures !openRead ==> result && setIndex == Some(0)
      ensures !openRead ==> curMpd == (if openWrite && accepted then Some(0) else old(curMpd))
      ensures openRead ==> unchanged(this)
      ensures openRead ==> (result <==> old(curMpd).Some? && old(curMpd).value != NoIndex)
      ensures openRead ==> setIndex == (if result then old(curMpd) else None)
      ensures wifi == old(wifi) && players == old(players) && favs == old(favs)
    {
      if !openRead {
        var _ := WritePlayerIndex(0, openWrite, accepted);
        return true, Some(0);
      }
      var cur := if curMpd.Some? then curMpd.value else NoIndex;
      if cur != NoIndex {
        return true, Some(cur);
      }
      return false, None;
    }
  }

  /** putString's answer: the length written, or 0 when the store refused the put. */
  function PutResult(accepted: bool, value: string): (n: nat)
    ensures n > 0 <==> accepted && value != ""
  {
    if accepted then |value| else 0
  }

  /** One iteration of read_players' loop: the verdict on the next stored record. */
  method ReadStoredPlayer(pl: string, ghost rest: seq<string>) returns (v: SdCard.PlayerLine)
    ensures StoredPlayerVerdicts([pl] + rest) == [v] + StoredPlayerVerdicts(rest)
  {
    assert ([pl] + rest)[1..] == rest;
    var parts := Split(pl, '|');
    if |parts| != 3 {
      return SdCard.SkipLine;
    }
    var port := Stoi(parts[2]);
    if port.None? {
      return SdCard.BadPort;
    }
    return SdCard.PlayerEntry(Player(parts[0], None, Some(parts[1]), port.value));
  }

  method ReadStoredFavourite(fav: string, ghost rest: seq<string>) returns (f: Option<Favourite>)
    ensures StoredFavouriteVerdicts([fav] + rest) == [f] + StoredFavouriteVerdicts(rest)
  {
    assert ([fav] + rest)[1..] == rest;
    var parts := Split(fav, '|');
    if |parts| == 2 {
      return Some(Favourite(parts[0], parts[1]));
    }
    return None;
  }

  /** write_wifi answers true when only the "tz" put succeeded, yet read_wifi then
      finds no ssid and cannot restore the configuration. */
  lemma WifiSuccessWithoutSsid(cfg: NetworkCfg)
    requires cfg.tz != ""
    ensures var accept := (k: nat) => k != 0;
      accept(3) && StoredWifi(WifiStore(cfg, accept)).None?
  {
    var accept := (k: nat) => k != 0;
    assert "ssid" !in WifiStore(cfg, accept);
  }
}
