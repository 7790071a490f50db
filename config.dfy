/** The in-memory configuration (config.cpp): network settings, players, favourites
    and the index of the active player. It is loaded from the SD card when the card
    holds a complete configuration, which is then copied to flash, and from the flash
    copy otherwise. */
module Config {
  import opened Types
  import SdCard
  import Flash
  import Strings

  /** The three SD files on this boot: None when the card or the file cannot be
      opened, else the file's lines. */
  datatype SdFiles = SdFiles(wifi: Option<seq<string>>, players: Option<seq<string>>,
                             favourites: Option<seq<string>>)

  /** What the flash hardware answers: whether `prefs.begin(namespace, readOnly)`
      succeeds, and whether the k-th put into a namespace during one call is stored. */
  datatype FlashEnv = FlashEnv(begin: (string, bool) -> bool, accept: string -> nat -> bool)

  /** A load's answer, or the stoi exception that ends it (nothing catches it). */
  datatype Loaded = Loaded(ok: bool) | Aborted

  /** The fields of the Configuration object, as a value. */
  datatype Settings = Settings(nwCfg: NetworkCfg, players: seq<Player>,
                               favourites: seq<Favourite>, playerIndex: nat)

  /** The statically allocated configuration before anything is loaded. */
  function Fresh(): Settings
  {
    Settings(EmptyNetworkCfg, [], [], 0)
  }

  // ---------------------------------------------------------------------------
  // load_SD_config, load_FLASH_config, save_FLASH_config, load_config
  // ---------------------------------------------------------------------------

  /** load_SD_config: wifi, then players, then favourites, each read only when the one
      before succeeded; each reader works on the configuration in place. */
  function LoadSd(s: Settings, sd: SdFiles): (r: (Loaded, Settings))
    ensures r.1.playerIndex == s.playerIndex
    ensures !SdCard.WifiFile(sd.wifi, s.nwCfg).0 ==>
      r.0 == Loaded(false) && r.1.players == s.players && r.1.favourites == s.favourites
    ensures r.0 == Loaded(true) ==> |r.1.players| > 0 && |r.1.favourites| > 0
  {
    var w := SdCard.WifiFile(sd.wifi, s.nwCfg);
    var s1 := s.(nwCfg := w.1);
    if !w.0 then (Loaded(false), s1)
    else
      match SdCard.PlayersFile(sd.players, s.players)
      case Threw => (Aborted, s1)
      case Load(ok, ps) =>
        var s2 := s1.(players := ps);
        if !ok then (Loaded(false), s2)
        else
          var f := SdCard.FavouritesFile(sd.favourites, s.favourites);
          (Loaded(f.0), s2.(favourites := f.1))
  }

  /** load_FLASH_config: wifi, players, favourites and the player index, each read
      only when the one before succeeded. Only the index can write to flash: when its
      namespace cannot be opened read-only, 0 is written and set. */
  function LoadFlash(s: Settings, st: Flash.Store, env: FlashEnv): (r: (Loaded, Settings, Flash.Store))
    ensures r.2.wifi == st.wifi && r.2.players == st.players && r.2.favs == st.favs
    ensures r.0 == Loaded(true) ==>
      r.1.nwCfg.ssid != "" && r.1.nwCfg.psw != "" && r.1.nwCfg.ntpServer != "" && r.1.nwCfg.tz != ""
    ensures !(env.begin(Flash.NvsWifi, true) && Flash.StoredWifi(st.wifi).Some?) ==> r == (Loaded(false), s, st)
  {
    var w := if env.begin(Flash.NvsWifi, true) then Flash.StoredWifi(st.wifi) else None;
    if w.None? then (Loaded(false), s, st)
    else
      var s1 := s.(nwCfg := w.value);
      var p := if env.begin(Flash.NvsPlayers, true) then Flash.ReadPlayersSpec(st.players, s.players)
               else SdCard.Load(false, s.players);
      match p
      case Threw => (Aborted, s1, st)
      case Load(pok, ps) =>
        var s2 := s1.(players := ps);
        if !pok then (Loaded(false), s2, st)
        else
          var f := if env.begin(Flash.NvsFavs, true) then Flash.ReadFavouritesSpec(st.favs, s.favourites)
                   else (false, s.favourites);
          var s3 := s2.(favourites := f.1);
          if !f.0 then (Loaded(false), s3, st)
          else if !env.begin(Flash.NvsCurMpd, true) then
            var written := env.begin(Flash.NvsCurMpd, false) && env.accept(Flash.NvsCurMpd)(0);
            (Loaded(true), s3.(playerIndex := 0), st.(curMpd := if written then Some(0) else st.curMpd))
          else if st.curMpd.Some? && st.curMpd.value != Flash.NoIndex then
            (Loaded(true), s3.(playerIndex := st.curMpd.value), st)
          else (Loaded(false), s3, st)
  }

  /** save_FLASH_config: write_wifi, then write_players, then write_favourites, each
      only when the one before succeeded. The player index is not saved. */
  function SaveFlash(s: Settings, st: Flash.Store, env: FlashEnv): (r: (bool, Flash.Store))
    ensures r.1.curMpd == st.curMpd
    ensures r.0 ==> r.1.players == Flash.Stored(Flash.PlayerRecords(s.players), |s.players|)
    ensures r.0 ==> r.1.favs == Flash.Stored(Flash.FavouriteRecords(s.favourites), |s.favourites|)
  {
    if !env.begin(Flash.NvsWifi, false) then (false, st)
    else
      var wa := env.accept(Flash.NvsWifi);
      var st1 := st.(wifi := Flash.WifiStore(s.nwCfg, wa));
      if !(wa(3) && s.nwCfg.tz != "") then (false, st1)
      else if !env.begin(Flash.NvsPlayers, false) then (false, st1)
      else
        var n := Flash.Written(env.accept(Flash.NvsPlayers), 0, |s.players|);
        var st2 := st1.(players := Flash.Stored(Flash.PlayerRecords(s.players), n));
        if n != |s.players| then (false, st2)
        else if !env.begin(Flash.NvsFavs, false) then (false, st2)
        else
          var m := Flash.Written(env.accept(Flash.NvsFavs), 0, |s.favourites|);
          (m == |s.favourites|, st2.(favs := Flash.Stored(Flash.FavouriteRecords(s.favourites), m)))
  }

  /** load_config: the SD card first; when it succeeds, a copy is saved to flash and
      the answer is true whatever the save answered. Otherwise the answer is the flash
      load's, on top of whatever the failed SD load had already put in place. */
  function LoadSdThenFlash(s: Settings, st: Flash.Store, sd: SdFiles, env: FlashEnv): (Loaded, Settings, Flash.Store)
  {
    var fromSd := LoadSd(s, sd);
    match fromSd.0
    case Aborted => (Aborted, fromSd.1, st)
    case Loaded(ok) =>
      if ok then (Loaded(true), fromSd.1, SaveFlash(fromSd.1, st, env).1)
      else LoadFlash(fromSd.1, st, env)
  }

  /** When the SD card holds a complete configuration, neither the flash contents nor
      the flash hardware influence the loaded settings, and the answer is true. */
  lemma SdWinsOverFlash(s: Settings, sd: SdFiles, st1: Flash.Store, env1: FlashEnv, st2: Flash.Store, env2: FlashEnv)
    requires LoadSd(s, sd).0 == Loaded(true)
    ensures LoadSdThenFlash(s, st1, sd, env1).0 == Loaded(true)
    ensures LoadSdThenFlash(s, st1, sd, env1).1 == LoadSdThenFlash(s, st2, sd, env2).1 == LoadSd(s, sd).1
  {
  }

  /** Without a complete SD configuration the answer is the flash load's, and flash is
      read only on this path. */
  lemma FallBackToFlash(s: Settings, sd: SdFiles, st: Flash.Store, env: FlashEnv)
    requires LoadSd(s, sd).0 == Loaded(false)
    ensures LoadSdThenFlash(s, st, sd, env) == LoadFlash(LoadSd(s, sd).1, st, env)
  {
  }

  /** A card whose players.txt loads but whose favs.txt does not leaves its players
      in the list: the flash players are appended after them. */
  lemma PartialSdKeepsPlayers(sd: SdFiles, st: Flash.Store, env: FlashEnv)
    requires SdCard.WifiFile(sd.wifi, EmptyNetworkCfg).0
    requires SdCard.PlayersFile(sd.players, []).Load?
    requires !SdCard.FavouritesFile(sd.favourites, []).0
    requires env.begin(Flash.NvsWifi, true) && Flash.StoredWifi(st.wifi).Some?
    requires env.begin(Flash.NvsPlayers, true)
    requires Flash.ReadPlayersSpec(st.players, SdCard.PlayersFile(sd.players, []).value).Load?
    ensures LoadSdThenFlash(Fresh(), st, sd, env).1.players
         == Flash.ReadPlayersSpec(st.players, SdCard.PlayersFile(sd.players, []).value).value
  {
    var sdLoad := LoadSd(Fresh(), sd);
    assert sdLoad.0 == Loaded(false) && sdLoad.1.players == SdCard.PlayersFile(sd.players, []).value;
    FallBackToFlash(Fresh(), sd, st, env);
  }

  // ---------------------------------------------------------------------------
  // The flash copy serves the next boot
  // ---------------------------------------------------------------------------

  /** Settings the flash store keeps faithfully. */
  predicate Restorable(s: Settings)
  {
    && SdCard.CleanField(s.nwCfg.ssid) && SdCard.CleanField(s.nwCfg.psw)
    && SdCard.CleanField(s.nwCfg.ntpServer) && SdCard.CleanField(s.nwCfg.tz)
    && (forall k :: 0 <= k < |s.players| ==> SdCard.CleanPlayer(s.players[k]))
    && (forall k :: 0 <= k < |s.favourites| ==> SdCard.CleanFavourite(s.favourites[k]))
  }

  /** Everything a complete SD load puts into a fresh configuration came out of the
      parsers, so the flash store can keep it. */
  lemma SdLoadRestorable(sd: SdFiles)
    requires LoadSd(Fresh(), sd).0 == Loaded(true)
    ensures Restorable(LoadSd(Fresh(), sd).1)
  {
    var w := SdCard.WifiFile(sd.wifi, EmptyNetworkCfg);
    SdCard.WifiSuccessClean(sd.wifi.value, EmptyNetworkCfg);
    var vs := SdCard.PlayerVerdicts(sd.players.value);
    SdCard.CollectedPlayersClean(vs, []);
    var fvs := SdCard.FavouriteVerdicts(sd.favourites.value);
    SdCard.CollectedFavouritesClean(fvs, []);
  }

  /** Hardware on which every flash namespace opens and every put is stored (the
      read-only opening of the player index is left free). */
  ghost predicate Reliable(env: FlashEnv)
  {
    && env.begin(Flash.NvsWifi, false) && env.begin(Flash.NvsPlayers, false) && env.begin(Flash.NvsFavs, false)
    && env.begin(Flash.NvsWifi, true) && env.begin(Flash.NvsPlayers, true) && env.begin(Flash.NvsFavs, true)
    && (forall k :: env.accept(Flash.NvsWifi)(k))
    && (forall k :: env.accept(Flash.NvsPlayers)(k))
    && (forall k :: env.accept(Flash.NvsFavs)(k))
  }

  /** On reliable hardware save_FLASH_config succeeds and stores every record. */
  lemma SaveOnReliableFlash(s: Settings, st: Flash.Store, env: FlashEnv)
    requires Reliable(env) && s.nwCfg.tz != ""
    ensures SaveFlash(s, st, env)
         == (true, Flash.Store(Flash.WifiStore(s.nwCfg, env.accept(Flash.NvsWifi)),
                               Flash.Stored(Flash.PlayerRecords(s.players), |s.players|),
                               Flash.Stored(Flash.FavouriteRecords(s.favourites), |s.favourites|),
                               st.curMpd))
  {
    Flash.WrittenAll(env.accept(Flash.NvsPlayers), 0, |s.players|);
    Flash.WrittenAll(env.accept(Flash.NvsFavs), 0, |s.favourites|);
  }

  /** load_FLASH_config on a fresh configuration gets saved settings back; its answer
      then depends only on the player index. */
  lemma RestoreFromFlash(s: Settings, cur: Option<nat>, env: FlashEnv)
    requires Reliable(env) && Restorable(s) && |s.players| > 0 && |s.favourites| > 0
    ensures var st := Flash.Store(Flash.WifiStore(s.nwCfg, env.accept(Flash.NvsWifi)),
                                  Flash.Stored(Flash.PlayerRecords(s.players), |s.players|),
                                  Flash.Stored(Flash.FavouriteRecords(s.favourites), |s.favourites|),
                                  cur);
      var r := LoadFlash(Fresh(), st, env);
      && r.1.nwCfg == s.nwCfg && r.1.players == s.players && r.1.favourites == s.favourites
      && (r.0 == Loaded(true) <==> !env.begin(Flash.NvsCurMpd, true) || (cur.Some? && cur.value != Flash.NoIndex))
  {
    var wa := env.accept(Flash.NvsWifi);
    assert wa(0) && wa(1) && wa(2) && wa(3);
    Flash.WifiRoundTrip(s.nwCfg, wa);
    Flash.PlayersRoundTrip(s.players, |s.players|, []);
    assert [] + s.players[..|s.players|] == s.players;
    Flash.FavouritesRoundTrip(s.favourites, |s.favourites|, []);
    assert [] + s.favourites[..|s.favourites|] == s.favourites;
  }

  /** The flash copy serves the next boot: a configuration loaded from the card into a
      fresh start on reliable flash is loaded back, field for field, by a later fresh
      start without a card. That load answers true exactly when the player index can be
      had: its namespace cannot be opened (0 is then used) or it holds an index other
      than 999. */
  lemma SdConfigSurvivesInFlash(sd: SdFiles, st: Flash.Store, env: FlashEnv)
    requires LoadSd(Fresh(), sd).0 == Loaded(true)
    requires Reliable(env)
    ensures var first := LoadSdThenFlash(Fresh(), st, sd, env);
      var second := LoadSdThenFlash(Fresh(), first.2, SdFiles(None, None, None), env);
      && first.0 == Loaded(true)
      && second.1.nwCfg == first.1.nwCfg && second.1.players == first.1.players
      && second.1.favourites == first.1.favourites
      && (second.0 == Loaded(true)
          <==> !env.begin(Flash.NvsCurMpd, true) || (st.curMpd.Some? && st.curMpd.value != Flash.NoIndex))
  {
    var s := LoadSd(Fresh(), sd).1;
    SdLoadRestorable(sd);
    SaveOnReliableFlash(s, st, env);
    RestoreFromFlash(s, st.curMpd, env);
  }

  /** Flash hardware on which everything opens and every put is stored. */
  function AllOpen(): FlashEnv
  {
    FlashEnv((ns, readOnly) => true, ns => k => true)
  }

  /** load_FLASH_config can answer true with no player at all: read_players answers
      true as soon as key "0" holds something, even a record it skips, and
      get_active_mpd then has no player at index 0. */
  lemma FlashLoadWithoutPlayers()
    ensures var st := Flash.Store(map["ssid" := "n", "psw" := "p", "ntp_server" := "t", "tz" := "z"],
                                  map["0" := "x"], map["0" := "y"], Some(0));
      var r := LoadFlash(Fresh(), st, AllOpen());
      r.0 == Loaded(true) && r.1.players == [] && r.1.playerIndex == 0
  {
    var players: map<string, string> := map["0" := "x"];
    assert Flash.Key(0) == "0";
    assert Flash.Key(1) == "1";
    assert Flash.StoredRecords(players, 1) == [];
    assert Flash.StoredRecords(players, 0) == ["x"];
    Strings.SingleToken("x", '|');
    assert Flash.StoredPlayerVerdicts(["x"]) == [SdCard.SkipLine];
    var favs: map<string, string> := map["0" := "y"];
    assert Flash.StoredRecords(favs, 1) == [];
    assert Flash.StoredRecords(favs, 0) == ["y"];
    Strings.SingleToken("y", '|');
    assert Flash.StoredFavouriteVerdicts(["y"]) == [None];
  }

  /** select_player's persistence: the index set by write_player_index is what a
      later load_FLASH_config reads back, unless it is the sentinel 999. */
  lemma PlayerIndexRoundTrip(s: Settings, st: Flash.Store, env: FlashEnv, selected: nat)
    requires env.begin(Flash.NvsCurMpd, true)
    requires st.curMpd == Some(selected)
    requires LoadFlash(s, st, env).0.Loaded? && LoadFlash(s, st, env).0.ok
    ensures selected != Flash.NoIndex
    ensures LoadFlash(s, st, env).1.playerIndex == selected
  {
  }

  // ---------------------------------------------------------------------------
  // get_active_mpd
  // ---------------------------------------------------------------------------

  predicate OccursAt(s: string, pat: string, k: nat)
  {
    k + |pat| <= |s| && s[k..k + |pat|] == pat
  }

  /** std::string::find from position `from`: the first occurrence of `pat`. */
  function FindFrom(s: string, pat: string, from: nat): (r: Option<nat>)
    ensures r.Some? ==> from <= r.value && OccursAt(s, pat, r.value)
    ensures r.Some? ==> forall k :: from <= k < r.value ==> !OccursAt(s, pat, k)
    ensures r.None? ==> forall k :: from <= k ==> !OccursAt(s, pat, k)
    decreases |s| - from
  {
    if from + |pat| > |s| then None
    else if s[from..from + |pat|] == pat then Some(from)
    else FindFrom(s, pat, from + 1)
  }

  /** The mDNS suffix the ESP32 resolver wants removed. */
  const LocalSuffix := ".local"

  /** The ip get_active_mpd settles on for a player: a cached ip is kept; otherwise a
      ".local" hostname is cut at its first ".local" and looked up over mDNS, and any
      other hostname is used as the address itself. */
  function ResolveIp(p: Player, queryHost: string -> string): (r: Player)
    requires p.ip.Some? || p.hostname.Some?
    ensures r.ip.Some?
    ensures r.name == p.name && r.hostname == p.hostname && r.port == p.port
    ensures p.ip.Some? ==> r == p
  {
    if p.ip.Some? then p
    else
      var host := p.hostname.value;
      match FindFrom(host, LocalSuffix, 0)
      case Some(pos) => p.(ip := Some(queryHost(host[..pos])))
      case None => p.(ip := Some(host))
  }

  /** A hostname with ".local" in it is looked up by the part before its first
      ".local", and that name holds no ".local" of its own. */
  lemma LocalNameLookedUp(p: Player, queryHost: string -> string, pos: nat)
    requires p.ip.None? && p.hostname.Some?
    requires OccursAt(p.hostname.value, LocalSuffix, pos)
    requires forall k :: 0 <= k < pos ==> !OccursAt(p.hostname.value, LocalSuffix, k)
    ensures ResolveIp(p, queryHost).ip == Some(queryHost(p.hostname.value[..pos]))
    ensures forall k :: 0 <= k ==> !OccursAt(p.hostname.value[..pos], LocalSuffix, k)
  {
    var host := p.hostname.value;
    assert FindFrom(host, LocalSuffix, 0) == Some(pos);
    forall k | 0 <= k
      ensures !OccursAt(host[..pos], LocalSuffix, k)
    {
      if OccursAt(host[..pos], LocalSuffix, k) {
        assert host[..pos][k..k + |LocalSuffix|] == host[k..k + |LocalSuffix|];
        assert OccursAt(host, LocalSuffix, k);
      }
    }
  }

  /** A hostname without ".local" becomes the ip unchanged, with no lookup. */
  lemma PlainHostIsIp(p: Player, queryHost: string -> string)
    requires p.ip.None? && p.hostname.Some?
    requires forall k :: 0 <= k ==> !OccursAt(p.hostname.value, LocalSuffix, k)
    ensures ResolveIp(p, queryHost).ip == p.hostname
  {
  }

  // ---------------------------------------------------------------------------
  // The Configuration object
  // ---------------------------------------------------------------------------

  class Configuration {
    var nwCfg: NetworkCfg
    var players: seq<Player>
    var favourites: seq<Favourite>
    var playerIndex: nat

    function Snapshot(): Settings
      reads this
    {
      Settings(nwCfg, players, favourites, playerIndex)
    }

    constructor ()
      ensures Snapshot() == Fresh()
    {
      nwCfg := EmptyNetworkCfg;
      players := [];
      favourites := [];
      playerIndex := 0;
    }

    /** set_player_index: the uint16 value is stored unchanged. */
    method SetPlayerIndex(newPl: nat)
      requires newPl < U16
      modifies this
      ensures Snapshot() == old(Snapshot()).(playerIndex := newPl)
    {
      playerIndex := newPl;
    }

    method LoadSdConfig(sd: SdFiles) returns (r: Loaded)
      modifies this
      ensures (r, Snapshot()) == LoadSd(old(Snapshot()), sd)
    {
      var ok;
      ok, nwCfg := SdCard.ReadWifi(sd.wifi, nwCfg);
      if !ok {
        return Loaded(false);
      }
      var p := SdCard.ReadPlayers(sd.players, players);
      if p.Threw? {
        return Aborted;
      }
      players := p.value;
      if !p.ok {
        return Loaded(false);
      }
      ok, favourites := SdCard.ReadFavourites(sd.favourites, favourites);
      return Loaded(ok);
    }

    method LoadFlashConfig(nvs: Flash.Nvs, env: FlashEnv) returns (r: Loaded)
      requires nvs.Valid()
      modifies this, nvs
      ensures nvs.Valid()
      ensures (r, Snapshot(), nvs.Contents()) == LoadFlash(old(Snapshot()), old(nvs.Contents()), env)
    {
      var ok;
      ok, nwCfg := nvs.ReadWifi(nwCfg, env.begin(Flash.NvsWifi, true));
      if !ok {
        return Loaded(false);
      }
      var p := nvs.ReadPlayers(players, env.begin(Flash.NvsPlayers, true));
      if p.Threw? {
        return Aborted;
      }
      players := p.value;
      if !p.ok {
        return Loaded(false);
      }
      ok, favourites := nvs.ReadFavourites(favourites, env.begin(Flash.NvsFavs, true));
      if !ok {
        return Loaded(false);
      }
      var setIndex;
      ok, setIndex := nvs.ReadPlayerIndex(env.begin(Flash.NvsCurMpd, true), env.begin(Flash.NvsCurMpd, false),
                                          env.accept(Flash.NvsCurMpd)(0));
      if setIndex.Some? {
        playerIndex := setIndex.value;
      }
      return Loaded(ok);
    }

    method SaveFlashConfig(nvs: Flash.Nvs, env: FlashEnv) returns (ok: bool)
      requires nvs.Valid()
      modifies nvs
      ensures nvs.Valid()
      ensures (ok, nvs.Contents()) == SaveFlash(Snapshot(), old(nvs.Contents()), env)
    {
      ok := nvs.WriteWifi(nwCfg, env.begin(Flash.NvsWifi, false), env.accept(Flash.NvsWifi));
      if !ok {
        return;
      }
      ok := nvs.WritePlayers(players, env.begin(Flash.NvsPlayers, false), env.accept(Flash.NvsPlayers));
      if !ok {
        return;
      }
      ok := nvs.WriteFavourites(favourites, env.begin(Flash.NvsFavs, false), env.accept(Flash.NvsFavs));
    }

    method LoadConfig(sd: SdFiles, nvs: Flash.Nvs, env: FlashEnv) returns (r: Loaded)
      requires nvs.Valid()
      modifies this, nvs
      ensures nvs.Valid()
      ensures (r, Snapshot(), nvs.Contents()) == LoadSdThenFlash(old(Snapshot()), old(nvs.Contents()), sd, env)
    {
      r := LoadSdConfig(sd);
      if r == Loaded(true) {
        var _ := SaveFlashConfig(nvs, env);
      } else if r == Loaded(false) {
        r := LoadFlashConfig(nvs, env);
      }
    }

    /** select_player after a row below "Return" was chosen (menu.cpp): the index is
        set, then write_player_index sets it again and stores it. */
    method SwitchPlayer(selected: nat, nvs: Flash.Nvs, env: FlashEnv)
      requires selected < U16 && nvs.Valid()
      modifies this, nvs
      ensures nvs.Valid()
      ensures Snapshot() == old(Snapshot()).(playerIndex := selected)
      ensures nvs.curMpd == (if env.begin(Flash.NvsCurMpd, false) && env.accept(Flash.NvsCurMpd)(0)
                             then Some(selected) else old(nvs.curMpd))
      ensures nvs.wifi == old(nvs.wifi) && nvs.players == old(nvs.players) && nvs.favs == old(nvs.favs)
    {
      SetPlayerIndex(selected);
      var setIndex := nvs.WritePlayerIndex(selected, env.begin(Flash.NvsCurMpd, false), env.accept(Flash.NvsCurMpd)(0));
      if setIndex.Some? {
        SetPlayerIndex(setIndex.value);
      }
    }

    /** get_active_mpd: the player at the current index, with its ip resolved and
        cached in the list. */
    method GetActiveMpd(queryHost: string -> string) returns (p: Player)
      requires playerIndex < |players|
      requires players[playerIndex].ip.Some? || players[playerIndex].hostname.Some?
      modifies this
      ensures p == ResolveIp(old(players[playerIndex]), queryHost)
      ensures Snapshot() == old(Snapshot()).(players := old(players)[old(playerIndex) := p])
    {
      p := players[playerIndex];
      if p.ip.None? {
        var localname := p.hostname.value;
        var pos := FindFrom(localname, LocalSuffix, 0);
        if pos.Some? {
          localname := localname[..pos.value];
          p := p.(ip := Some(queryHost(localname)));
        } else {
          p := p.(ip := p.hostname);
        }
        players := players[playerIndex := p];
      }
    }
  }
}
