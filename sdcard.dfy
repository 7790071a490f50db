/** The SD-card configuration parsers (sdcard_fs.cpp). A file reaches the parsers as
    the sequence of lines `readStringUntil('\n')` delivers while the file still has
    bytes available. Each line is trimmed and split on '|'; malformed lines are skipped
    and accepted records are appended to the caller's list.

    Each parser is specified in two layers: the verdict on one line (ClassifyPlayer,
    ClassifyFavourite, Pair) and the accumulation of the verdicts of a whole file. */
module SdCard {
  import opened Types
  import opened Strings

  /** The player loop keeps reading while the list holds at most five entries. */
  const PlayerLoopLimit: nat := 5
  /** The favourites loop keeps reading while the list holds at most fifty entries. */
  const FavouriteLoopLimit: nat := 50

  /** Result of the players parser: its boolean answer and the caller's list
      afterwards, or Threw when `stoi` raised an exception on a port field. */
  datatype Load<T> = Load(ok: bool, value: T) | Threw

  predicate CleanField(f: string)
  {
    |f| > 0 && '|' !in f
  }

  /** A trimmed line longer than one character that splits into exactly two fields. */
  function Pair(line: string): (r: Option<(string, string)>)
    ensures r.Some? ==> CleanField(r.value.0) && CleanField(r.value.1)
  {
    var t := Trim(line);
    if |t| <= 1 then None
    else
      var parts := Tokens(t, '|');
      if |parts| == 2 then Some((parts[0], parts[1])) else None
  }

  /** The body shared by the wifi and favourites loops: trim, check the length,
      split, check the field count. */
  method ReadPair(line: string) returns (r: Option<(string, string)>)
    ensures r == Pair(line)
  {
    var t := Trim(line);
    if |t| <= 1 {
      return None;
    }
    var parts := Split(t, '|');
    if |parts| == 2 {
      return Some((parts[0], parts[1]));
    }
    return None;
  }

  /** Reading past the end yields "", which is never a record. */
  lemma EmptyLineIsNoPair()
    ensures Pair("").None?
  {
  }

  function Take<T>(s: seq<T>, n: nat): (r: seq<T>)
    ensures |r| == if |s| < n then |s| else n
  {
    if |s| <= n then s else s[..n]
  }

  lemma TakeCons<T>(x: T, s: seq<T>, n: nat)
    ensures Take([x] + s, n + 1) == [x] + Take(s, n)
  {
    if |s| > n {
      assert ([x] + s)[..n + 1] == [x] + s[..n];
    }
  }

  // ---------------------------------------------------------------------------
  // players.txt: name|ip|port
  // ---------------------------------------------------------------------------

  datatype PlayerLine = SkipLine | PlayerEntry(player: Player) | BadPort

  /** A player as the parsers build it: non-empty '|'-free name and ip, no hostname,
      a port in the range of a 32-bit int. */
  predicate CleanPlayer(p: Player)
  {
    CleanField(p.name) && p.ip.Some? && CleanField(p.ip.value)
    && p.hostname.None? && Int32Min <= p.port <= Int32Max
  }

  predicate CleanFavourite(f: Favourite)
  {
    CleanField(f.name) && CleanField(f.url)
  }

  /** The verdict on one line of players.txt: too short or not three fields is
      skipped, a port stoi rejects throws, anything else is a player with its ip set. */
  function ClassifyPlayer(line: string): (r: PlayerLine)
    ensures r.PlayerEntry? ==> CleanPlayer(r.player)
  {
    var t := Trim(line);
    if |t| <= 1 then SkipLine
    else
      var parts := Tokens(t, '|');
      if |parts| != 3 then SkipLine
      else
        match Stoi(parts[2])
        case None => BadPort
        case Some(port) => PlayerEntry(Player(parts[0], None, Some(parts[1]), port))
  }

  /** One iteration of the players loop body: the verdict on the next line. */
  method ReadPlayerLine(line: string) returns (v: PlayerLine)
    ensures v == ClassifyPlayer(line)
  {
    var pl := Trim(line);
    if |pl| <= 1 {
      return SkipLine;
    }
    var parts := Split(pl, '|');
    if |parts| != 3 {
      return SkipLine;
    }
    var port := Stoi(parts[2]);
    if port.None? {
      return BadPort;
    }
    return PlayerEntry(Player(parts[0], None, Some(parts[1]), port.value));
  }

  /** The verdict on each line, in file order. */
  function PlayerVerdicts(lines: seq<string>): (vs: seq<PlayerLine>)
    ensures |vs| == |lines|
    ensures forall k :: 0 <= k < |vs| && vs[k].PlayerEntry? ==> CleanPlayer(vs[k].player)
  {
    if lines == [] then [] else [ClassifyPlayer(lines[0])] + PlayerVerdicts(lines[1..])
  }

  /** The list after the verdicts `vs` are applied to `players`, or None when stoi
      throws before the list is full. */
  function CollectPlayers(vs: seq<PlayerLine>, players: seq<Player>): Option<seq<Player>>
    decreases |vs|
  {
    if vs == [] || |players| > PlayerLoopLimit then Some(players)
    else
      match vs[0]
      case SkipLine => CollectPlayers(vs[1..], players)
      case BadPort => None
      case PlayerEntry(p) => CollectPlayers(vs[1..], players + [p])
  }

  function ParsePlayers(lines: seq<string>, players: seq<Player>): Load<seq<Player>>
  {
    match CollectPlayers(PlayerVerdicts(lines), players)
    case None => Threw
    case Some(ps) => Load(|ps| > 0, ps)
  }

  /** The verdict at position i is the verdict on line i. */
  lemma {:induction false} PlayerVerdictAt(lines: seq<string>, i: nat)
    requires i < |lines|
    ensures PlayerVerdicts(lines)[i] == ClassifyPlayer(lines[i])
    decreases i
  {
    if i > 0 {
      assert lines[1..][i - 1] == lines[i];
      PlayerVerdictAt(lines[1..], i - 1);
    }
  }

  /** One verdict applied to a list with room: a skipped line keeps it, a bad port
      aborts, an accepted line appends its player. */
  lemma CollectStep(vs: seq<PlayerLine>, i: nat, players: seq<Player>)
    requires i < |vs| && |players| <= PlayerLoopLimit
    ensures CollectPlayers(vs[i..], players)
         == match vs[i]
            case SkipLine => CollectPlayers(vs[i + 1..], players)
            case BadPort => None
            case PlayerEntry(p) => CollectPlayers(vs[i + 1..], players + [p])
  {
    assert vs[i..][0] == vs[i] && vs[i..][1..] == vs[i + 1..];
  }


  /** parse_players_file. */
  method ParsePlayersFile(lines: seq<string>, players: seq<Player>) returns (r: Load<seq<Player>>)
    ensures r == ParsePlayers(lines, players)
  {
    ghost var vs := PlayerVerdicts(lines);
    var list := players;
    var i := 0;
    while i < |lines| && |list| <= PlayerLoopLimit
      invariant 0 <= i <= |lines|
      invariant CollectPlayers(vs[i..], list) == CollectPlayers(vs, players)
    {
      var v := ReadPlayerLine(lines[i]);
      PlayerVerdictAt(lines, i);
      CollectStep(vs, i, list);
      if v.BadPort? {
        assert CollectPlayers(vs, players) == None;
        return Threw;
      }
      if v.PlayerEntry? {
        list := list + [v.player];
      }
      i := i + 1;
    }
    assert CollectPlayers(vs, players) == Some(list) by {
      if i == |lines| {
        assert vs[i..] == [];
      }
    }
    return Load(|list| > 0, list);
  }

  /** The players of the accepted lines, in file order. */
  function AcceptedPlayers(vs: seq<PlayerLine>): seq<Player>
  {
    if vs == [] then []
    else if vs[0].PlayerEntry? then [vs[0].player] + AcceptedPlayers(vs[1..])
    else AcceptedPlayers(vs[1..])
  }

  predicate NoBadPort(vs: seq<PlayerLine>)
  {
    forall k :: 0 <= k < |vs| ==> !vs[k].BadPort?
  }

  lemma NoBadPortTail(vs: seq<PlayerLine>)
    requires vs != [] && NoBadPort(vs)
    ensures !vs[0].BadPort? && NoBadPort(vs[1..])
  {
    forall k | 0 <= k < |vs| - 1 ensures !vs[1..][k].BadPort? {
      assert vs[1..][k] == vs[k + 1];
    }
  }

  /** Parsing only appends: the old entries stay in front, in order. At most six
      players are held afterwards unless more were there before. */
  lemma {:induction false} PlayersOnlyAppend(vs: seq<PlayerLine>, players: seq<Player>)
    requires CollectPlayers(vs, players).Some?
    ensures var r := CollectPlayers(vs, players).value;
      && |players| <= |r| && r[..|players|] == players
      && |r| <= (if |players| > PlayerLoopLimit then |players| else PlayerLoopLimit + 1)
    decreases |vs|
  {
    if vs != [] && |players| <= PlayerLoopLimit {
      if vs[0].SkipLine? {
        PlayersOnlyAppend(vs[1..], players);
      } else if vs[0].PlayerEntry? {
        var q := players + [vs[0].player];
        PlayersOnlyAppend(vs[1..], q);
        var r := CollectPlayers(vs[1..], q).value;
        assert r[..|players|] == r[..|q|][..|players|];
      }
    }
  }

  /** Stepping past the first of the lines `vs[..k]`: its verdict and the rest of the
      prefix, whose accepted players follow that line's own. */
  lemma PrefixStep(vs: seq<PlayerLine>, k: nat)
    requires 0 < k <= |vs|
    ensures vs[..k][1..] == vs[1..][..k - 1]
    ensures AcceptedPlayers(vs[..k])
         == (if vs[0].PlayerEntry? then [vs[0].player] else []) + AcceptedPlayers(vs[1..][..k - 1])
    ensures NoBadPort(vs[..k]) ==> !vs[0].BadPort? && NoBadPort(vs[1..][..k - 1])
  {
    assert vs[..k][0] == vs[0];
    assert vs[..k][1..] == vs[1..][..k - 1];
    if NoBadPort(vs[..k]) {
      NoBadPortTail(vs[..k]);
    }
  }

  /** The parser appends the accepted players in file order, as many as fit below the
      cap of six, whenever no bad port comes before the list is full: `vs[..k]` holds no
      bad port and either is the whole file or already fills the list. Lines after it
      are never read, so a bad port there does not matter. */
  lemma {:induction false} PlayersReference(vs: seq<PlayerLine>, players: seq<Player>, k: nat)
    requires k <= |vs| && NoBadPort(vs[..k])
    requires k == |vs| || |players| + |AcceptedPlayers(vs[..k])| > PlayerLoopLimit
    ensures CollectPlayers(vs, players)
         == Some(if |players| > PlayerLoopLimit then players
                 else players + Take(AcceptedPlayers(vs), PlayerLoopLimit + 1 - |players|))
    decreases |vs|
  {
    if vs == [] {
      assert players + [] == players;
    } else if |players| <= PlayerLoopLimit {
      var rest := vs[1..];
      PrefixStep(vs, k);
      if k == |vs| {
        assert rest[..k - 1] == rest;
      }
      if vs[0].SkipLine? {
        PlayersReference(rest, players, k - 1);
      } else {
        var p := vs[0].player;
        assert CollectPlayers(vs, players) == CollectPlayers(rest, players + [p]);
        assert AcceptedPlayers(vs) == [p] + AcceptedPlayers(rest);
        PlayersReference(rest, players + [p], k - 1);
        AppendFirstAccepted(players, p, AcceptedPlayers(rest));
      }
    }
  }

  /** Appending one accepted player and then as many of the remaining ones as fit is
      appending as many as fit of all of them. */
  lemma AppendFirstAccepted(players: seq<Player>, p: Player, more: seq<Player>)
    requires |players| <= PlayerLoopLimit
    ensures (if |players + [p]| > PlayerLoopLimit then players + [p]
             else players + [p] + Take(more, PlayerLoopLimit - |players|))
         == players + Take([p] + more, PlayerLoopLimit + 1 - |players|)
  {
    var n: nat := PlayerLoopLimit - |players|;
    TakeCons(p, more, n);
    if n == 0 {
      assert Take(more, 0) == [];
      assert players + [p] + [] == players + [p];
    } else {
      assert players + [p] + Take(more, n) == players + ([p] + Take(more, n));
    }
  }

  /** Every player the parser appends was built from a line, so it is clean. */
  lemma {:induction false} CollectedPlayersClean(vs: seq<PlayerLine>, players: seq<Player>)
    requires forall k :: 0 <= k < |vs| && vs[k].PlayerEntry? ==> CleanPlayer(vs[k].player)
    requires forall k :: 0 <= k < |players| ==> CleanPlayer(players[k])
    requires CollectPlayers(vs, players).Some?
    ensures forall k :: 0 <= k < |CollectPlayers(vs, players).value| ==> CleanPlayer(CollectPlayers(vs, players).value[k])
    decreases |vs|
  {
    if vs != [] && |players| <= PlayerLoopLimit {
      assert forall k :: 0 <= k < |vs| - 1 ==> vs[1..][k] == vs[k + 1];
      if vs[0].SkipLine? {
        CollectedPlayersClean(vs[1..], players);
      } else if vs[0].PlayerEntry? {
        CollectedPlayersClean(vs[1..], players + [vs[0].player]);
      }
    }
  }

  /** parse_players_file answers true exactly when the list was non-empty or some line
      was accepted, whenever no bad port comes before the list is full. */
  lemma PlayersResult(lines: seq<string>, players: seq<Player>, k: nat)
    requires k <= |lines| && NoBadPort(PlayerVerdicts(lines)[..k])
    requires k == |lines| || |players| + |AcceptedPlayers(PlayerVerdicts(lines)[..k])| > PlayerLoopLimit
    ensures ParsePlayers(lines, players).Load?
    ensures ParsePlayers(lines, players).ok <==> |players| > 0 || |AcceptedPlayers(PlayerVerdicts(lines))| > 0
  {
    PlayersReference(PlayerVerdicts(lines), players, k);
  }

  /** A stoi exception ends the parse: a bad port reached while the list has room
      aborts it, whatever accepted and skipped lines come before it. */
  lemma {:induction false} BadPortThrows(vs: seq<PlayerLine>, players: seq<Player>, k: nat)
    requires k < |vs| && vs[k].BadPort? && NoBadPort(vs[..k])
    requires |players| + |AcceptedPlayers(vs[..k])| <= PlayerLoopLimit
    ensures CollectPlayers(vs, players).None?
    decreases k
  {
    if k > 0 {
      PrefixStep(vs, k);
      assert vs[1..][k - 1] == vs[k];
      if vs[0].PlayerEntry? {
        BadPortThrows(vs[1..], players + [vs[0].player], k - 1);
      } else {
        BadPortThrows(vs[1..], players, k - 1);
      }
    }
  }

  /** Once the accepted lines fill the list to six, the parse succeeds: a bad port
      after that point is never read. */
  lemma BadPortAfterCapIgnored(p: Player)
    ensures CollectPlayers([PlayerEntry(p), BadPort], [p, p, p, p, p]) == Some([p, p, p, p, p, p])
  {
    var vs := [PlayerEntry(p), BadPort];
    assert vs[1..] == [BadPort];
    assert [p, p, p, p, p] + [p] == [p, p, p, p, p, p];
  }

  /** The record format "name|ip|port" (the one the flash store also uses). */
  function PlayerRecord(name: string, ip: string, port: int): string
  {
    Join([name, ip, IntToString(port)], '|')
  }

  /** A record line is read back as the player it describes, when the fields are
      non-empty and '|'-free, the name does not start with white space and the port
      fits an int. */
  lemma PlayerRecordAccepted(name: string, ip: string, port: int)
    requires CleanField(name) && CleanField(ip) && !IsSpace(name[0])
    requires Int32Min <= port <= Int32Max
    ensures ClassifyPlayer(PlayerRecord(name, ip, port)) == PlayerEntry(Player(name, None, Some(ip), port))
  {
    var ps := IntToString(port);
    SplitJoin([name, ip, ps], '|');
    var line := PlayerRecord(name, ip, port);
    assert [name, ip, ps][1..] == [ip, ps] && [ip, ps][1..] == [ps];
    assert Join([ps], '|') == ps;
    assert Join([ip, ps], '|') == ip + ['|'] + ps;
    assert line == name + ['|'] + (ip + ['|'] + ps);
    assert line[0] == name[0];
    assert line[|line| - 1] == ps[|ps| - 1];
    TrimKeeps(line);
    StoiIntToString(port);
  }

  // ---------------------------------------------------------------------------
  // favs.txt: name|url
  // ---------------------------------------------------------------------------

  function ClassifyFavourite(line: string): (r: Option<Favourite>)
    ensures r.Some? ==> CleanFavourite(r.value)
  {
    match Pair(line)
    case None => None
    case Some(f) => Some(Favourite(f.0, f.1))
  }

  function FavouriteVerdicts(lines: seq<string>): (vs: seq<Option<Favourite>>)
    ensures |vs| == |lines|
    ensures forall k :: 0 <= k < |vs| && vs[k].Some? ==> CleanFavourite(vs[k].value)
  {
    if lines == [] then [] else [ClassifyFavourite(lines[0])] + FavouriteVerdicts(lines[1..])
  }

  function CollectFavourites(vs: seq<Option<Favourite>>, favs: seq<Favourite>): seq<Favourite>
    decreases |vs|
  {
    if vs == [] || |favs| > FavouriteLoopLimit then favs
    else if vs[0].Some? then CollectFavourites(vs[1..], favs + [vs[0].value])
    else CollectFavourites(vs[1..], favs)
  }

  function ParseFavourites(lines: seq<string>, favs: seq<Favourite>): (bool, seq<Favourite>)
  {
    var fs := CollectFavourites(FavouriteVerdicts(lines), favs);
    (|fs| > 0, fs)
  }

  /** parse_favs_file. */
  method ParseFavsFile(lines: seq<string>, favs: seq<Favourite>) returns (result: bool, list: seq<Favourite>)
    ensures (result, list) == ParseFavourites(lines, favs)
  {
    ghost var vs := FavouriteVerdicts(lines);
    list := favs;
    var i := 0;
    while i < |lines| && |list| <= FavouriteLoopLimit
      invariant 0 <= i <= |lines|
      invariant CollectFavourites(vs[i..], list) == CollectFavourites(vs, favs)
    {
      var f := ReadPair(lines[i]);
      FavouriteVerdictAt(lines, i);
      CollectFavouriteStep(vs, i, list);
      if f.Some? {
        list := list + [Favourite(f.value.0, f.value.1)];
      }
      i := i + 1;
    }
    assert CollectFavourites(vs, favs) == list by {
      if i == |lines| {
        assert vs[i..] == [];
      }
    }
    result := |list| > 0;
  }


  /** The verdict at position i is the verdict on line i. */
  lemma {:induction false} FavouriteVerdictAt(lines: seq<string>, i: nat)
    requires i < |lines|
    ensures FavouriteVerdicts(lines)[i] == ClassifyFavourite(lines[i])
    decreases i
  {
    if i > 0 {
      assert lines[1..][i - 1] == lines[i];
      FavouriteVerdictAt(lines[1..], i - 1);
    }
  }

  /** One verdict applied to a list with room: a rejected line keeps it, an accepted
      line appends its favourite. */
  lemma CollectFavouriteStep(vs: seq<Option<Favourite>>, i: nat, favs: seq<Favourite>)
    requires i < |vs| && |favs| <= FavouriteLoopLimit
    ensures CollectFavourites(vs[i..], favs)
         == if vs[i].Some? then CollectFavourites(vs[i + 1..], favs + [vs[i].value])
            else CollectFavourites(vs[i + 1..], favs)
  {
    assert vs[i..][0] == vs[i] && vs[i..][1..] == vs[i + 1..];
  }


  function AcceptedFavourites(vs: seq<Option<Favourite>>): seq<Favourite>
  {
    if vs == [] then []
    else if vs[0].Some? then [vs[0].value] + AcceptedFavourites(vs[1..])
    else AcceptedFavourites(vs[1..])
  }

  /** The parser appends the accepted favourites in file order, as many as fit below
      the cap of fifty-one; the old entries stay in front. */
  lemma {:induction false} FavouritesReference(vs: seq<Option<Favourite>>, favs: seq<Favourite>)
    ensures CollectFavourites(vs, favs)
         == if |favs| > FavouriteLoopLimit then favs
            else favs + Take(AcceptedFavourites(vs), FavouriteLoopLimit + 1 - |favs|)
    decreases |vs|
  {
    if vs == [] {
      assert favs + [] == favs;
    } else if |favs| <= FavouriteLoopLimit {
      var rest := vs[1..];
      if vs[0].None? {
        FavouritesReference(rest, favs);
      } else {
        var f := vs[0].value;
        var n: nat := FavouriteLoopLimit - |favs|;
        FavouritesReference(rest, favs + [f]);
        TakeCons(f, AcceptedFavourites(rest), n);
        assert Take(AcceptedFavourites(rest), 0) == [];
        assert favs + [f] + Take(AcceptedFavourites(rest), n) == favs + ([f] + Take(AcceptedFavourites(rest), n));
      }
    }
  }

  /** Every favourite the parser appends is clean. */
  lemma {:induction false} CollectedFavouritesClean(vs: seq<Option<Favourite>>, favs: seq<Favourite>)
    requires forall k :: 0 <= k < |vs| && vs[k].Some? ==> CleanFavourite(vs[k].value)
    requires forall k :: 0 <= k < |favs| ==> CleanFavourite(favs[k])
    ensures forall k :: 0 <= k < |CollectFavourites(vs, favs)| ==> CleanFavourite(CollectFavourites(vs, favs)[k])
    decreases |vs|
  {
    if vs != [] && |favs| <= FavouriteLoopLimit {
      assert forall k :: 0 <= k < |vs| - 1 ==> vs[1..][k] == vs[k + 1];
      if vs[0].None? {
        CollectedFavouritesClean(vs[1..], favs);
      } else {
        CollectedFavouritesClean(vs[1..], favs + [vs[0].value]);
      }
    }
  }

  /** At most fifty-one favourites are held afterwards (unless more were there), the
      old entries stay in front, and the answer is true exactly when the list is
      non-empty. */
  lemma FavouritesBounds(lines: seq<string>, favs: seq<Favourite>)
    ensures var (ok, fs) := ParseFavourites(lines, favs);
      && |favs| <= |fs| && fs[..|favs|] == favs
      && |fs| <= (if |favs| > FavouriteLoopLimit then |favs| else FavouriteLoopLimit + 1)
      && (ok <==> |favs| > 0 || |AcceptedFavourites(FavouriteVerdicts(lines))| > 0)
  {
    FavouritesReference(FavouriteVerdicts(lines), favs);
  }

  function FavouriteRecord(name: string, url: string): string
  {
    Join([name, url], '|')
  }

  /** "name|url" is read back as that favourite when both fields are non-empty and
      '|'-free and neither end of the line is white space. */
  lemma FavouriteRecordAccepted(name: string, url: string)
    requires CleanField(name) && CleanField(url) && !IsSpace(name[0]) && !IsSpace(url[|url| - 1])
    ensures ClassifyFavourite(FavouriteRecord(name, url)) == Some(Favourite(name, url))
  {
    SplitJoin([name, url], '|');
    var line := FavouriteRecord(name, url);
    assert [name, url][1..] == [url];
    assert line == name + ['|'] + url;
    TrimKeeps(line);
  }

  // ---------------------------------------------------------------------------
  // wifi.txt: lines in pairs, ssid|psw then ntp_server|tz
  // ---------------------------------------------------------------------------

  datatype WifiScan = WifiScan(cfg: NetworkCfg, haveWifi: bool, haveNtp: bool)

  /** The second line of a pair; reading past the end yields the empty string. */
  function Second(lines: seq<string>): string
  {
    if |lines| > 1 then lines[1] else ""
  }

  /** What is left after one pair. */
  function Rest<T>(s: seq<T>): seq<T>
  {
    if |s| > 1 then s[2..] else []
  }

  function WithWifi(st: WifiScan, rec: Option<(string, string)>): WifiScan
  {
    match rec
    case None => st
    case Some(f) => st.(cfg := st.cfg.(ssid := f.0, psw := f.1), haveWifi := true)
  }

  function WithNtp(st: WifiScan, rec: Option<(string, string)>): WifiScan
  {
    match rec
    case None => st
    case Some(f) => st.(cfg := st.cfg.(ntpServer := f.0, tz := f.1), haveNtp := true)
  }

  function WifiFrom(lines: seq<string>, st: WifiScan): WifiScan
    decreases |lines|
  {
    if lines == [] then st
    else WifiFrom(Rest(lines), WithNtp(WithWifi(st, Pair(lines[0])), Pair(Second(lines))))
  }

  function ParseWifi(lines: seq<string>, cfg: NetworkCfg): (bool, NetworkCfg)
  {
    var st := WifiFrom(lines, WifiScan(cfg, false, false));
    (st.haveWifi && st.haveNtp, st.cfg)
  }

  /** parse_wifi_file. */
  method ParseWifiFile(lines: seq<string>, cfg: NetworkCfg) returns (result: bool, nwCfg: NetworkCfg)
    ensures (result, nwCfg) == ParseWifi(lines, cfg)
  {
    var haveNtp := false;
    var haveWifi := false;
    nwCfg := cfg;
    var i := 0;
    while i < |lines|
      invariant 0 <= i <= |lines|
      invariant WifiFrom(lines[i..], WifiScan(nwCfg, haveWifi, haveNtp)) == WifiFrom(lines, WifiScan(cfg, false, false))
    {
      ghost var before := WifiScan(nwCfg, haveWifi, haveNtp);
      ghost var i0 := i;
      assert lines[i..][0] == lines[i];
      assert Second(lines[i..]) == if i + 1 < |lines| then lines[i + 1] else "";
      assert Rest(lines[i..]) == if i + 1 < |lines| then lines[i + 2..] else [];
      var wifi := ReadPair(lines[i]);
      i := i + 1;
      if wifi.Some? {
        nwCfg := nwCfg.(ssid := wifi.value.0, psw := wifi.value.1);
        haveWifi := true;
      }
      var line := if i < |lines| then lines[i] else "";
      if i < |lines| {
        i := i + 1;
      }
      var ntp := ReadPair(line);
      if ntp.Some? {
        nwCfg := nwCfg.(ntpServer := ntp.value.0, tz := ntp.value.1);
        haveNtp := true;
      }
      assert WifiScan(nwCfg, haveWifi, haveNtp) == WithNtp(WithWifi(before, Pair(lines[i0])), Pair(Second(lines[i0..])));
      assert lines[i..] == Rest(lines[i0..]);
    }
    result := haveWifi && haveNtp;
  }

  /** Reference: the ssid|psw of the last valid line in a first-of-pair position. */
  function LastWifi(lines: seq<string>): Option<(string, string)>
    decreases |lines|
  {
    if lines == [] then None
    else
      var later := LastWifi(Rest(lines));
      if later.Some? then later else Pair(lines[0])
  }

  /** Reference: the ntp|tz of the last valid line in a second-of-pair position. */
  function LastNtp(lines: seq<string>): Option<(string, string)>
    decreases |lines|
  {
    if lines == [] then None
    else
      var later := LastNtp(Rest(lines));
      if later.Some? then later else Pair(Second(lines))
  }

  /** Later valid lines overwrite earlier ones: the result holds the last valid
      ssid|psw and the last valid ntp|tz, other fields keep their old values, and each
      flag says whether such a line was seen. */
  lemma {:induction false} WifiReference(lines: seq<string>, st: WifiScan)
    ensures var r := WifiFrom(lines, st);
      && r.haveWifi == (st.haveWifi || LastWifi(lines).Some?)
      && r.haveNtp == (st.haveNtp || LastNtp(lines).Some?)
      && (r.cfg.ssid, r.cfg.psw) == (if LastWifi(lines).Some? then LastWifi(lines).value else (st.cfg.ssid, st.cfg.psw))
      && (r.cfg.ntpServer, r.cfg.tz) == (if LastNtp(lines).Some? then LastNtp(lines).value else (st.cfg.ntpServer, st.cfg.tz))
    decreases |lines|
  {
    if lines != [] {
      WifiReference(Rest(lines), WithNtp(WithWifi(st, Pair(lines[0])), Pair(Second(lines))));
    }
  }

  /** Which lines are records. */
  function RecordFlags(lines: seq<string>): (fs: seq<bool>)
    ensures |fs| == |lines|
  {
    seq(|lines|, k requires 0 <= k < |lines| => Pair(lines[k]).Some?)
  }

  /** Some flag is set at a position of the given parity (0 even, 1 odd). */
  predicate SomeAtParity(flags: seq<bool>, parity: nat)
  {
    exists k :: 0 <= k < |flags| && k % 2 == parity && flags[k]
  }

  lemma ParityStep(flags: seq<bool>, parity: nat)
    requires flags != [] && parity < 2
    ensures SomeAtParity(flags, parity)
        <==> (parity < |flags| && flags[parity]) || SomeAtParity(Rest(flags), parity)
  {
    var rest := Rest(flags);
    if SomeAtParity(flags, parity) && !(parity < |flags| && flags[parity]) {
      var k :| 0 <= k < |flags| && k % 2 == parity && flags[k];
      assert k >= 2 && rest[k - 2] == flags[k];
    }
    if SomeAtParity(rest, parity) {
      var k :| 0 <= k < |rest| && k % 2 == parity && rest[k];
      assert flags[k + 2] == rest[k];
    }
  }

  /** A valid ssid|psw line exists exactly when a record sits at an even position,
      and a valid ntp|tz line exactly when one sits at an odd position. */
  lemma {:induction false} LastLinesExist(lines: seq<string>)
    ensures LastWifi(lines).Some? <==> SomeAtParity(RecordFlags(lines), 0)
    ensures LastNtp(lines).Some? <==> SomeAtParity(RecordFlags(lines), 1)
    decreases |lines|
  {
    var flags := RecordFlags(lines);
    if lines != [] {
      LastLinesExist(Rest(lines));
      assert RecordFlags(Rest(lines)) == Rest(flags);
      ParityStep(flags, 0);
      ParityStep(flags, 1);
      EmptyLineIsNoPair();
      assert flags[0] == Pair(lines[0]).Some?;
      assert (1 < |flags| && flags[1]) == Pair(Second(lines)).Some?;
    } else {
      assert !SomeAtParity(flags, 0) && !SomeAtParity(flags, 1);
    }
  }

  predicate CleanScan(st: WifiScan)
  {
    && (st.haveWifi ==> CleanField(st.cfg.ssid) && CleanField(st.cfg.psw))
    && (st.haveNtp ==> CleanField(st.cfg.ntpServer) && CleanField(st.cfg.tz))
  }

  /** Fields are only ever set from records, so whatever the scan has found is clean. */
  lemma {:induction false} WifiFromClean(lines: seq<string>, st: WifiScan)
    requires CleanScan(st)
    ensures CleanScan(WifiFrom(lines, st))
    decreases |lines|
  {
    if lines != [] {
      WifiFromClean(Rest(lines), WithNtp(WithWifi(st, Pair(lines[0])), Pair(Second(lines))));
    }
  }

  /** A successful parse_wifi_file sets all four fields to non-empty '|'-free values. */
  lemma WifiSuccessClean(lines: seq<string>, cfg: NetworkCfg)
    requires ParseWifi(lines, cfg).0
    ensures var c := ParseWifi(lines, cfg).1;
      CleanField(c.ssid) && CleanField(c.psw) && CleanField(c.ntpServer) && CleanField(c.tz)
  {
    WifiFromClean(lines, WifiScan(cfg, false, false));
  }

  /** parse_wifi_file answers true exactly when some first-of-pair line holds
      ssid|psw and some second-of-pair line holds ntp|tz. */
  lemma WifiResult(lines: seq<string>, cfg: NetworkCfg)
    ensures ParseWifi(lines, cfg).0 <==> SomeAtParity(RecordFlags(lines), 0) && SomeAtParity(RecordFlags(lines), 1)
  {
    WifiReference(lines, WifiScan(cfg, false, false));
    LastLinesExist(lines);
  }

  // ---------------------------------------------------------------------------
  // read_wifi / read_players / read_favourites: a file that is there or not
  // ---------------------------------------------------------------------------

  /** The card and the file are modelled together: None when SD.begin or SD.open
      fails, else the file's lines. A missing file answers false and changes nothing. */
  function WifiFile(file: Option<seq<string>>, cfg: NetworkCfg): (bool, NetworkCfg)
  {
    if file.None? then (false, cfg) else ParseWifi(file.value, cfg)
  }

  function PlayersFile(file: Option<seq<string>>, players: seq<Player>): Load<seq<Player>>
  {
    if file.None? then Load(false, players) else ParsePlayers(file.value, players)
  }

  function FavouritesFile(file: Option<seq<string>>, favs: seq<Favourite>): (bool, seq<Favourite>)
  {
    if file.None? then (false, favs) else ParseFavourites(file.value, favs)
  }

  /** read_wifi. */
  method ReadWifi(file: Option<seq<string>>, cfg: NetworkCfg) returns (result: bool, nwCfg: NetworkCfg)
    ensures (result, nwCfg) == WifiFile(file, cfg)
  {
    if file.None? {
      return false, cfg;
    }
    result, nwCfg := ParseWifiFile(file.value, cfg);
  }

  /** read_players. */
  method ReadPlayers(file: Option<seq<string>>, players: seq<Player>) returns (r: Load<seq<Player>>)
    ensures r == PlayersFile(file, players)
  {
    if file.None? {
      return Load(false, players);
    }
    r := ParsePlayersFile(file.value, players);
  }

  /** read_favourites. */
  method ReadFavourites(file: Option<seq<string>>, favs: seq<Favourite>) returns (result: bool, list: seq<Favourite>)
    ensures (result, list) == FavouritesFile(file, favs)
  {
    if file.None? {
      return false, favs;
    }
    result, list := ParseFavsFile(file.value, favs);
  }
}
