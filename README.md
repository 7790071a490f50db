# M5PaperMpdCli core, modelled in Dafny

M5PaperMpdCli is the firmware of an M5Paper e-ink remote control for MPD (music
player daemon) servers. This project models the parts of it that decide things,
rather than drive hardware.

- **The menu engine** (`Menus`, menu.h and menu.cpp):
  - sub-menus of positioned lines;
  - the modal `display_menu` loop, driven by the left/right/push buttons and by touches;
  - the composition of the main, player and favourites-page menus by `CreateMenus`;
  - the dispatch of a chosen row by `Show`, `select_player` and `select_favourite`.

  The loop is modelled over a finite sequence of polls and answers the committed row, or
  None if the input ends first. Both versions of `display_menu` are modelled:
  - menu.cpp's: a 30-pixel touch band offset by `CANVAS_Y`, and a commit by a second touch
    right of x = 270;
  - menu.h's inline one: a 12-pixel band, no commit by touch.
- **The sleep scheduler** (`Sleep`, utils.cpp): the time `shutdown_and_wake` sleeps, aligned
  to the next minute (playing), ten-minute mark (day) or hour (night).
- **Text helpers** (`Strings`):
  - `split` (a loop proved against the maximal-runs definition);
  - `get_date_time`'s zero-padded layout;
  - the library routines the parsers rely on: `String::trim`, `std::to_string`, `std::stoi`.
- **The SD-card parsers** (`SdCard`, sdcard_fs.cpp): `parse_wifi_file`, `parse_players_file`,
  `parse_favs_file` and the `read_*` functions around them.
  - Each file is the sequence of lines `readStringUntil('\n')` delivers.
  - `None` stands for a card or file that cannot be opened.
- **The flash copy** (`Flash`, flash_fs.cpp): the Preferences namespaces `wifi`, `players`,
  `favs` and `curmpd`.
  - Class `Nvs` holds them as maps from key to string, plus the stored player index.
  - Every `write_*`/`read_*` is a method on it.
  - Whether `prefs.begin` succeeds and whether each put finds room are parameters.
- **The configuration object** (`Config`, config.cpp): class `Configuration` with
  `load_config`, `load_SD_config`, `load_FLASH_config`, `save_FLASH_config`,
  `set_player_index`, `get_active_mpd`, and `select_player`'s persistence of the index.
  - Each method is tied to a function on the `Settings` and `Store` values.
  - Whole boots are reasoned about through those functions: SD first, then flash, then the
    next boot from flash.

Properties proved:
- `split` yields exactly the maximal delimiter-free runs, and inverts `Join`.
- The sleep always ends on the next boundary of its period.
- The cursor wraps cyclically.
- Touches select by band.
- The menus `CreateMenus` builds have the advertised shape, and their pages cover the first
  100 favourites in order.
- Every dispatched action refers to an existing player or favourite.
- The SD parsers only append, respect their caps and answer true exactly when the list is
  non-empty.
- Flash writes followed by flash reads give the players, favourites and network settings
  back (for values the parsers can produce).
- A configuration loaded from the card survives in flash and is loaded back, field for
  field, on a later boot without a card.

The model also pins down some sharp edges of the code as written:
- `write_wifi` reports success when only the last put succeeded (`Flash.WifiSuccessWithoutSsid`).
- `read_players` answers true for a namespace whose records are all unusable, so
  `load_FLASH_config` can succeed with no player at all (`Config.FlashLoadWithoutPlayers`).
- An SD load that fails at the favourites leaves the card's players in the list, and the
  flash players are appended after them (`Config.PartialSdKeepsPlayers`).
- `load_SD_config` never touches the player index, and `save_FLASH_config` does not save it.

## Model

| member | source | states |
|---|---|---|
| Strings.FindFirstNotOf | M5PaperMpdCli/utils.cpp:32 | `find_first_not_of`: the first non-delimiter position at or after `from`, or none when only delimiters follow |
| Strings.Find | M5PaperMpdCli/utils.cpp:33 | `find`: the first delimiter position at or after `from`, or none when no delimiter follows |
| Strings.Tokens | M5PaperMpdCli/utils.cpp:32-35 | every token of the reference split is non-empty and free of the delimiter |
| Strings.Split | M5PaperMpdCli/utils.cpp:26-37 | the `split` loop returns exactly the maximal delimiter-free runs of the input, in order |
| Strings.TokensCoverInput | M5PaperMpdCli/utils.cpp:32-35 | nothing but delimiters is lost: the tokens glued together are the input with its delimiters deleted |
| Strings.OnlyDelimitersSplitToNothing | M5PaperMpdCli/utils.cpp:32 | an empty string or a string of delimiters only splits into no tokens |
| Strings.SingleToken | M5PaperMpdCli/utils.cpp:32-35 | a non-empty delimiter-free string is one token |
| Strings.SplitJoin | M5PaperMpdCli/utils.cpp:26-37 | splitting undoes joining non-empty delimiter-free fields with the delimiter |
| Strings.Trim | M5PaperMpdCli/sdcard_fs.cpp:102 | `String::trim` leaves no white space at either end of the result and never lengthens the string |
| Strings.TrimIsSlice | M5PaperMpdCli/sdcard_fs.cpp:102 | the trimmed string is a slice of `s` with only white space before and after it; with `Trim`'s contract this says exactly the leading and trailing white space is removed |
| Strings.SkipSpaces | M5PaperMpdCli/sdcard_fs.cpp:102 | the begin index of the trim stops at the first non-white-space character, having passed only white space |
| Strings.BackSpaces | M5PaperMpdCli/sdcard_fs.cpp:102 | the end index of the trim stops after the last non-white-space character, not before the begin index, having passed only white space |
| Strings.TrimKeeps | M5PaperMpdCli/sdcard_fs.cpp:136 | trimming a string with no white space at its ends changes nothing |
| Strings.NatToString | src/flash_fs.cpp:107 | `std::to_string(i)` of a non-negative number is a non-empty run of digits with no leading zero |
| Strings.ParseNatToString | src/flash_fs.cpp:107 | the decimal form of a number reads back as that number |
| Strings.NatToStringInjective | src/flash_fs.cpp:135 | distinct numbers give distinct keys |
| Strings.Stoi | M5PaperMpdCli/sdcard_fs.cpp:145 | `std::stoi` gives a 32-bit value; no digits or a value out of range is the exception (None) |
| Strings.StoiIntToString | src/flash_fs.cpp:108 | `stoi` reads back every 32-bit port `to_string` wrote |
| Strings.PadWidthAndValue | M5PaperMpdCli/utils.cpp:112 | a `%0Nd` field is N wide unless the number needs more digits, and reads back as the number |
| Strings.PadFits | M5PaperMpdCli/utils.cpp:112-114 | a value below 10^N gives exactly N digits that read back as the value |
| Strings.DateLayout | M5PaperMpdCli/utils.cpp:112 | the date part is YYYY:MM:DD, each field showing its value |
| Strings.TimeLayout | M5PaperMpdCli/utils.cpp:114 | the time part is HH:MM:SS, each field showing its value |
| Strings.DateTimeLayout | M5PaperMpdCli/utils.cpp:105-116 | `get_date_time` is the 21-character "YYYY:MM:DD - HH:MM:SS", each field reading back as its RTC value |
| Sleep.CRem | M5PaperMpdCli/utils.cpp:52 | C's truncating `%` on the signed RTC minute |
| Sleep.SleepReachesNextBoundary | M5PaperMpdCli/utils.cpp:44-57 | the sleep lies in 1..period (60, 600 or 3600 s) and the wake second is the next multiple of the period |
| Sleep.SleepBranches | M5PaperMpdCli/utils.cpp:44-67 | each branch's bottom-line message and bound; the deep-sleep timer is (seconds + 1) * 10^6 µs, between 2 s and 3601 s |
| Sleep.WrapLong32 | M5PaperMpdCli/utils.cpp:67 | a product in 32-bit `long` is the value congruent mod 2^32 within the int32 range |
| Sleep.ToUint64 | M5PaperMpdCli/utils.cpp:67 | the signed timer converted to `esp_deep_sleep`'s uint64 parameter |
| Sleep.NightTimerOverflows | M5PaperMpdCli/utils.cpp:67 | idle at 03:00:00 the timer as written is 2^64 - 693967296 µs instead of 3601000000 (reached on USB power, where `M5.shutdown` does nothing) |
| Sleep.TimerAsWrittenAgreesWhenItFits | M5PaperMpdCli/utils.cpp:67 | the timer as written is right exactly when sleep_time + 1 <= 2147 |
| Menus.NextLineY | M5PaperMpdCli/menu.h:80 | advancing the uint16 y by the spacing reaches the next line's position |
| Menus.SubMenu.constructor | M5PaperMpdCli/menu.h:56-61 | a new sub-menu is empty, with the next line at (2, 2) |
| Menus.SubMenu.Reserve | M5PaperMpdCli/menu.h:73-76 | `reserve` changes nothing observable |
| Menus.SubMenu.AddLine | M5PaperMpdCli/menu.h:77-81 | appends exactly one line at the current position and moves the position down one spacing; line k sits at (2, 2 + k * y_incr) |
| Menus.SubMenu.DrawMenu | M5PaperMpdCli/menu.h:43-53 | the frame records the `tft_write` calls as `draw_menu` issues them, one per line, in order, exactly the selected one highlighted (menu.h:27 defines `tft_write` as empty, so nothing reaches the screen) |
| Menus.SubMenu.ScanLines | M5PaperMpdCli/menu.cpp:165-179 | one touch point against the lines, as the first-match scan (see Findings) |
| Menus.SubMenu.ReadFingers | M5PaperMpdCli/menu.cpp:157-180 | the fingers of one reading are scanned in order with the first-match scan (`TouchFingers(FirstMatch, …)`); a commit ends the reading |
| Menus.SubMenu.DisplayMenu | M5PaperMpdCli/menu.cpp:122-184 | the loop over polls equals `Run(FirstMatch, …)`, the loop with the first-match scan, and a committed index lies in [0, size) |
| Menus.SubMenu.InlineScanLines | M5PaperMpdCli/menu.h:117-128 | menu.h's scan of one touch point with its held-back row counter |
| Menus.SubMenu.DisplayMenuInline | M5PaperMpdCli/menu.h:82-131 | menu.h's loop equals `InlineRun`, and the returned index lies in [0, size) |
| Menus.ScanFinger | M5PaperMpdCli/menu.cpp:165-179 | a scan keeps the cursor in range, and a commit names an existing row |
| Menus.TouchFingers | M5PaperMpdCli/menu.cpp:157-180 | all fingers of a touch keep the cursor in range; a commit names an existing row |
| Menus.Step | M5PaperMpdCli/menu.cpp:135-181 | one poll keeps the cursor in range; BtnP commits the selected row |
| Menus.Run | M5PaperMpdCli/menu.cpp:127-183 | any committed row lies in [0, size) |
| Menus.InlineScanInRange | M5PaperMpdCli/menu.h:117-128 | the inline scan keeps the selection in range |
| Menus.InlineFingersInRange | M5PaperMpdCli/menu.h:116-129 | all fingers of an inline touch keep the selection in range |
| Menus.UpDownInverse | M5PaperMpdCli/menu.cpp:135-150 | "up" from 0 gives size-1, "down" from size-1 gives 0; up and down undo each other and stay in range |
| Menus.PressesAreCyclic | M5PaperMpdCli/menu.cpp:135-150 | k presses of down move the cursor k rows forward modulo the size, k presses of up k rows back |
| Menus.TouchSelectsRow | M5PaperMpdCli/menu.cpp:165-177 | a touch in row i's band (and no earlier band) selects i, and commits i iff i was the previously touched row and x > 270 |
| Menus.TouchOutsideIgnored | M5PaperMpdCli/menu.cpp:166-179 | a touch outside every band changes nothing |
| Menus.InlineOnlySelectCommits | M5PaperMpdCli/menu.h:94-128 | menu.h's loop returns only after a BtnP; touches never return |
| Menus.ScanRulesAgree | M5PaperMpdCli/menu.cpp:165-179 | with disjoint bands, the scan as written and the first-match scan agree |
| Menus.SingleTouchCommitsAsWritten | M5PaperMpdCli/menu.cpp:165-178 | as written, one touch on the pixel row shared by main-menu rows 0 and 1 commits row 0 at once |
| Menus.FirstTouchNeverCommits | M5PaperMpdCli/menu.cpp:124-176 | with the first-match scan, the first touch only selects; it never commits |
| Menus.WideSpacingBandsDisjoint | M5PaperMpdCli/menu.cpp:106 | with spacing above 30 (the player and favourites menus), no two bands overlap |
| Menus.NPagesIsCappedCeiling | M5PaperMpdCli/menu.cpp:84-86 | the page count is ceil(nfavs/20) capped at 5: zero iff no favourites, five iff more than 80 |
| Menus.MainMenuShape | M5PaperMpdCli/menu.cpp:84-91 | the main menu has npages + 3 rows: "Start/Stop Play", "Select Player", one "Favourites k" per page, then "Return" |
| Menus.FavouritePageShape | M5PaperMpdCli/menu.cpp:103-118 | page p lists 1..20 favourites from index p*20, in order, then "Return" |
| Menus.PagesCoverFavourites | M5PaperMpdCli/menu.cpp:103-118 | the pages in order list the first min(nfavs, 100) favourites exactly once each |
| Menus.BuiltLayout | M5PaperMpdCli/menu.h:77-81 | a sub-menu built by `add_line` is the layout of its labels |
| Menus.Menu.constructor | M5PaperMpdCli/menu.h:145-149 | the main menu gets spacing 30, the player menu spacing 40, and no favourites menus exist yet |
| Menus.Menu.FillMain | M5PaperMpdCli/menu.cpp:83-91 | appends exactly the main-menu labels |
| Menus.Menu.FillPlayers | M5PaperMpdCli/menu.cpp:95-100 | appends one row per player, in order, then "Return" |
| Menus.Menu.AddAll | M5PaperMpdCli/menu.cpp:97-99 | appends the labels in order |
| Menus.Menu.BuildPage | M5PaperMpdCli/menu.cpp:106-116 | a fresh page sub-menu with spacing 40 holding its slice of favourites, then "Return" |
| Menus.Menu.AddPages | M5PaperMpdCli/menu.cpp:103-118 | exactly npages fresh page sub-menus are appended, page p holding page p's labels |
| Menus.Menu.CreateMenus | M5PaperMpdCli/menu.cpp:69-120 | builds the main, player and page menus with exactly those labels |
| Menus.Menu.Show | M5PaperMpdCli/menu.cpp:55-67 | the main menu's row, then the chosen sub-menu's row, lead to the action `ShowOutcome` gives |
| Menus.ShowDispatchMatchesLabels | M5PaperMpdCli/menu.cpp:60-66 | row 0 toggles, row 1 picks a player, row 2+p opens existing page p, "Return" does nothing; each iff the label says so |
| Menus.ReturnDoesNothing | M5PaperMpdCli/menu.cpp:31-66 | "Return" in the main, player or page menu leads to no action |
| Menus.SelectPlayerMatchesLabel | M5PaperMpdCli/menu.cpp:35-38 | a row switches player iff it is below the player count, and then to the player it names |
| Menus.SelectFavouriteMatchesLabel | M5PaperMpdCli/menu.cpp:48-51 | a row plays iff it is above "Return", and then favourite page*20 + row, the one it names |
| Menus.ShowActsOnExistingEntries | M5PaperMpdCli/menu.cpp:31-67 | whatever the inputs, Show only switches to a configured player and plays a configured favourite |
| Menus.ReturnOpensMissingPageAsWritten | M5PaperMpdCli/menu.cpp:58-66 | with 101 favourites the uncapped dispatch sends "Return" (row 7) to page 5, which does not exist |
| Menus.ShowDispatchAgreesUpTo100 | M5PaperMpdCli/menu.cpp:58-66 | up to 100 favourites the uncapped and capped dispatches agree |
| SdCard.Pair | M5PaperMpdCli/sdcard_fs.cpp:101-111 | a trimmed line longer than one character with exactly two fields gives two non-empty, bar-free fields |
| SdCard.ReadPair | M5PaperMpdCli/sdcard_fs.cpp:113-119 | the shared line body computes `Pair` |
| SdCard.EmptyLineIsNoPair | M5PaperMpdCli/sdcard_fs.cpp:113-117 | reading past the end of the file ("") is never a record |
| SdCard.ClassifyPlayer | M5PaperMpdCli/sdcard_fs.cpp:135-148 | an accepted player line gives a clean player (name and ip set, no hostname, int32 port) |
| SdCard.ReadPlayerLine | M5PaperMpdCli/sdcard_fs.cpp:135-146 | the body of the loop computes the verdict `ClassifyPlayer` on the line it reads |
| SdCard.PlayerVerdicts | M5PaperMpdCli/sdcard_fs.cpp:134-150 | one verdict per line; every accepted entry is clean |
| SdCard.ParsePlayersFile | M5PaperMpdCli/sdcard_fs.cpp:130-158 | the loop computes `ParsePlayers`: the collected list and whether it is non-empty, or the stoi exception |
| SdCard.PlayersOnlyAppend | M5PaperMpdCli/sdcard_fs.cpp:134-146 | old entries stay in front; at most six players afterwards unless more were there |
| SdCard.PlayersReference | M5PaperMpdCli/sdcard_fs.cpp:134-150 | when no bad port comes before the list is full, the accepted players are appended in file order, as many as fit below the cap of six; lines after that point are never read |
| SdCard.CollectedPlayersClean | M5PaperMpdCli/sdcard_fs.cpp:142-146 | every appended player is clean |
| SdCard.PlayersResult | M5PaperMpdCli/sdcard_fs.cpp:152-157 | when no bad port comes before the list is full, the answer is true iff the list was non-empty or some line was accepted |
| SdCard.BadPortThrows | M5PaperMpdCli/sdcard_fs.cpp:145 | a port `stoi` rejects, reached while the list has room, aborts the parse, whatever accepted or skipped lines come before it |
| SdCard.BadPortAfterCapIgnored | M5PaperMpdCli/sdcard_fs.cpp:134 | a bad port after the sixth player is never read: five players plus one accepted line, then a bad port, gives six players |
| SdCard.PlayerRecordAccepted | M5PaperMpdCli/sdcard_fs.cpp:136-146 | a "name, ip, port" (bar-separated) line with clean fields reads as that player |
| SdCard.ClassifyFavourite | M5PaperMpdCli/sdcard_fs.cpp:165-176 | an accepted favourite line gives non-empty bar-free name and url |
| SdCard.FavouriteVerdicts | M5PaperMpdCli/sdcard_fs.cpp:164-178 | one verdict per line; every accepted favourite is clean |
| SdCard.ParseFavsFile | M5PaperMpdCli/sdcard_fs.cpp:160-187 | the loop computes `ParseFavourites` |
| SdCard.FavouritesReference | M5PaperMpdCli/sdcard_fs.cpp:164-178 | the accepted favourites are appended in file order, as many as fit below the cap of 51 |
| SdCard.CollectedFavouritesClean | M5PaperMpdCli/sdcard_fs.cpp:172-175 | every appended favourite is clean |
| SdCard.FavouritesBounds | M5PaperMpdCli/sdcard_fs.cpp:164-186 | only appends, at most 51 afterwards, true iff the list is non-empty |
| SdCard.FavouriteRecordAccepted | M5PaperMpdCli/sdcard_fs.cpp:166-176 | a "name, url" (bar-separated) line with clean fields reads as that favourite |
| SdCard.ParseWifiFile | M5PaperMpdCli/sdcard_fs.cpp:95-128 | the loop over line pairs computes `ParseWifi` |
| SdCard.WifiReference | M5PaperMpdCli/sdcard_fs.cpp:100-124 | the last valid first-of-pair line sets ssid/psw, the last valid second-of-pair line sets ntp/tz; other fields keep their values |
| SdCard.LastLinesExist | M5PaperMpdCli/sdcard_fs.cpp:100-125 | a valid ssid line exists iff a record sits at an even position; an ntp line iff one sits at an odd position |
| SdCard.WifiFromClean | M5PaperMpdCli/sdcard_fs.cpp:105-123 | fields are only ever set from records |
| SdCard.WifiSuccessClean | M5PaperMpdCli/sdcard_fs.cpp:105-127 | on success all four fields are non-empty and bar-free |
| SdCard.WifiResult | M5PaperMpdCli/sdcard_fs.cpp:97-127 | the answer is true iff some even line holds ssid and psw and some odd line holds ntp server and tz |
| SdCard.ReadWifi | M5PaperMpdCli/sdcard_fs.cpp:34-53 | a missing card or file answers false and changes nothing; otherwise the parser's result |
| SdCard.ReadPlayers | M5PaperMpdCli/sdcard_fs.cpp:55-73 | the same, for players.txt |
| SdCard.ReadFavourites | M5PaperMpdCli/sdcard_fs.cpp:75-93 | the same, for favs.txt |
| Flash.Written | src/flash_fs.cpp:106-117 | the number of puts that succeed before the first refused one |
| Flash.NatToStringDistinct | src/flash_fs.cpp:107 | distinct record numbers give distinct keys |
| Flash.KeysBound | src/flash_fs.cpp:133-138 | a namespace holding keys "0".."n-1" has at least n keys |
| Flash.StoredRecords | src/flash_fs.cpp:133-138 | the values read from key "0" on, up to the first empty one, are all non-empty |
| Flash.StoredRecordsStep | src/flash_fs.cpp:133-151 | a non-empty value at key i is the next record |
| Flash.StoredLookup | src/flash_fs.cpp:103-108 | after clear() and n puts, key j < n holds record j and no later key exists |
| Flash.ReadBackStored | src/flash_fs.cpp:103-138 | reading back n stored non-empty records gives them in order |
| Flash.StoreRecords | src/flash_fs.cpp:103-117 | the write loop stores records under "0", "1", ... up to the first refused put |
| Flash.PlayerData | src/flash_fs.cpp:108 | a player's record, "name, ip, port" (bar-separated), is never empty |
| Flash.PlayerRecords | src/flash_fs.cpp:106-108 | one non-empty record per player |
| Flash.FavouriteData | src/flash_fs.cpp:176 | a favourite's record, "name, url" (bar-separated), is never empty |
| Flash.FavouriteRecords | src/flash_fs.cpp:174-176 | one non-empty record per favourite |
| Flash.StoredPlayer | src/flash_fs.cpp:140-148 | an accepted stored record gives a player with its ip set and no hostname |
| Flash.StoredPlayerVerdicts | src/flash_fs.cpp:140-148 | one verdict per stored record |
| Flash.StoredFavouriteVerdicts | src/flash_fs.cpp:209-215 | one verdict per stored record |
| Flash.AppendAccepted | src/flash_fs.cpp:140-148 | without a bad port, the accepted players are appended in order, with no cap |
| Flash.StoredPlayerRecord | src/flash_fs.cpp:108 | the record of a clean player reads back as that player |
| Flash.StoredFavouriteRecord | src/flash_fs.cpp:176 | the record of a clean favourite reads back as that favourite |
| Flash.StoredPlayersAccepted | src/flash_fs.cpp:140-148 | the records of clean players read back as those players, with no bad port |
| Flash.StoredFavouritesAccepted | src/flash_fs.cpp:209-215 | the records of clean favourites read back as those favourites |
| Flash.PlayersRoundTrip | src/flash_fs.cpp:93-159 | after `write_players` stored the first n clean players, `read_players` appends exactly those and answers true iff n > 0 |
| Flash.FavouritesRoundTrip | src/flash_fs.cpp:161-224 | the same for favourites |
| Flash.StoredWifi | src/flash_fs.cpp:70-87 | `read_wifi` restores the configuration iff all four values are non-empty |
| Flash.WifiRoundTrip | src/flash_fs.cpp:36-91 | when all four puts are stored, `read_wifi` gets the configuration back iff its fields are non-empty |
| Flash.WrittenAll | src/flash_fs.cpp:106-117 | when every put is accepted, all records are written |
| Flash.PutResult | src/flash_fs.cpp:49-52 | `putString` answers a positive length iff the put was stored and the value is non-empty |
| Flash.WifiSuccessWithoutSsid | src/flash_fs.cpp:49-52 | `write_wifi` can answer true although the ssid put failed, and `read_wifi` then restores nothing |
| Flash.Nvs.WriteWifi | src/flash_fs.cpp:36-59 | clear, then four puts; the answer reflects the "tz" put alone; nothing else changes |
| Flash.Nvs.ReadWifi | src/flash_fs.cpp:61-91 | true and all four fields set iff the namespace opens and all four values are non-empty; otherwise the configuration is untouched |
| Flash.Nvs.WritePlayers | src/flash_fs.cpp:93-121 | clear, then one record per player until the first refused put; true iff all were written; other namespaces unchanged |
| Flash.Nvs.ReadPlayers | src/flash_fs.cpp:123-159 | computes `ReadPlayersSpec`: keys in order up to the first empty value, skipping bad records, true iff key "0" held something |
| Flash.Nvs.WriteFavourites | src/flash_fs.cpp:161-189 | as `WritePlayers`, for favourites |
| Flash.Nvs.ReadFavourites | src/flash_fs.cpp:191-224 | computes `ReadFavouritesSpec` |
| Flash.Nvs.WritePlayerIndex | src/flash_fs.cpp:226-243 | when the namespace opens, the in-memory index is set, then the uint16 is stored if the put succeeds |
| Flash.Nvs.ReadPlayerIndex | src/flash_fs.cpp:245-264 | no namespace: 0 is written and set, answer true; a stored value other than 999 is set; 999 answers false |
| Flash.ReadStoredPlayer | src/flash_fs.cpp:140-148 | one loop iteration gives the verdict on the next record |
| Flash.ReadStoredFavourite | src/flash_fs.cpp:209-215 | one loop iteration gives the verdict on the next record |
| Config.LoadSd | src/config.cpp:94-104 | the index is untouched; a wifi failure leaves the lists untouched; true implies players and favourites |
| Config.LoadFlash | src/config.cpp:106-117 | only the index is ever written; true implies a complete network configuration; a wifi failure changes nothing |
| Config.SaveFlash | src/config.cpp:119-129 | the index is not saved; success means every player and favourite was stored |
| Config.SdWinsOverFlash | src/config.cpp:38-43 | with a complete SD configuration the answer is true and neither flash contents nor flash hardware matter |
| Config.FallBackToFlash | src/config.cpp:44-49 | otherwise the answer and settings are the flash load's |
| Config.PartialSdKeepsPlayers | src/config.cpp:94-117 | an SD load that fails at the favourites keeps its players, and the flash players are appended after them |
| Config.SdLoadRestorable | src/config.cpp:94-104 | everything a complete SD load puts in place is something the flash store keeps |
| Config.SaveOnReliableFlash | src/config.cpp:119-129 | on reliable flash the save succeeds and stores every record |
| Config.RestoreFromFlash | src/config.cpp:106-117 | a saved configuration loads back field for field; the answer then depends only on the index |
| Config.SdConfigSurvivesInFlash | src/config.cpp:36-50 | a configuration loaded from the card is loaded back, field for field, by the next boot without a card |
| Config.FlashLoadWithoutPlayers | src/config.cpp:106-117 | the flash load can answer true with an empty player list |
| Config.PlayerIndexRoundTrip | src/config.cpp:112 | a successful flash load sets the stored index, which is not 999 |
| Config.FindFrom | src/config.cpp:64 | `find`: the first occurrence of the pattern, or none |
| Config.ResolveIp | src/config.cpp:57-77 | the ip is always set afterwards; a cached ip is kept unchanged (so repeated calls agree); name, hostname and port are kept |
| Config.LocalNameLookedUp | src/config.cpp:63-71 | a ".local" hostname is looked up by its part before the first ".local" |
| Config.PlainHostIsIp | src/config.cpp:72-74 | any other hostname becomes the ip unchanged |
| Config.Configuration.constructor | src/config.cpp:29 | the configuration starts empty with index 0 |
| Config.Configuration.SetPlayerIndex | src/config.cpp:52-55 | the index is stored unchanged; nothing else changes |
| Config.Configuration.LoadSdConfig | src/config.cpp:94-104 | computes `LoadSd` on the object's fields |
| Config.Configuration.LoadFlashConfig | src/config.cpp:106-117 | computes `LoadFlash` on the object's fields and the flash store |
| Config.Configuration.SaveFlashConfig | src/config.cpp:119-129 | computes `SaveFlash`; only the flash store changes |
| Config.Configuration.LoadConfig | src/config.cpp:36-50 | computes `LoadSdThenFlash`: SD first, a save when SD succeeds, the flash load otherwise |
| Config.Configuration.SwitchPlayer | M5PaperMpdCli/menu.cpp:35-39 | `select_player` sets the index and stores it when the namespace opens and the put succeeds |
| Config.Configuration.GetActiveMpd | src/config.cpp:57-77 | answers `ResolveIp` of the active player and caches it in the list; nothing else changes |

## Left out

- Display, drawing and refresh (`epd_*`, `tft_*`, which menu.h defines as no-ops), the
  `DPRINT` traces, `vTaskDelay` and watchdog resets. Only the bottom-line sleep message is
  modelled.
- The MPD client (`toggle_start_stop`, `play_favourite`): `Show` answers an `Action` instead.
- Battery, temperature and humidity (`bat_percent`, `on_battery`, `get_status`): floating
  point and sensors.
- The destructors of `SubMenu` and `Menu`, and the heap allocation behind `new`/`strdup`.
  Players and favourites are values, so aliasing of the `MPD_PLAYER*` pointers is not
  modelled.
- `M5.update`/`M5.TP` polling: each poll is one `Event`, so a button edge takes priority
  over the touch panel, as in the loop. `TP.available()` and `TP.flush()` are not modelled.
- `CANVAS_Y` is defined in a header that is not part of this model. It is the parameter
  `canvasY`.
- config.h is not part of this model. The record shapes follow their use in the code, and
  the statically allocated `Configuration` is taken to start empty with index 0.
- The getters `getNW_CFG`, `getPlayers` and `getFavourites` (config.cpp:79-92): the model
  reads the fields directly.
- SD card I/O (`SD.begin`, `SD.open`, `readStringUntil`): a file is None or the sequence of
  its lines.
- Preferences hardware: whether `begin` succeeds and whether each put is stored are
  parameters (`began`, `accept`, `FlashEnv`).
- The mDNS resolver (`MDNS.begin`, `MDNS.queryHost`, `IPAddress::toString`): a function
  parameter `queryHost`.
- The RTC: its fields are parameters. `M5.shutdown` and `esp_deep_sleep` are results
  (`SleepDecision`).
- A `stoi` exception is nothing the firmware catches. The model ends the load with
  `Threw`/`Aborted` and does not model what happens after it.
- Config.Configuration.GetActiveMpd: requires the index to be in range and the player to
  have an ip or a hostname. The code checks neither, and indexes out of range or copies a
  NULL hostname otherwise.
- Menus.SubMenu.ScanLines: models the first-match scan, not the scan as written (see
  Findings). `Menus.ScanFinger` with `AsWritten` models the code as written.
- Menus.SubMenu.ReadFingers: is proved equal to `TouchFingers(FirstMatch, …)`, not to the
  scan as written, so it does not commit on one touch on a shared pixel row (see Findings).
  `Menus.TouchFingers` with `AsWritten` models the code as written.
- Menus.SubMenu.DisplayMenu: is proved equal to `Run(FirstMatch, …)`, so it misses the
  single-touch commit of the loop as written (see Findings). `Menus.Run` with `AsWritten`
  models the code as written, and `Menus.SingleTouchCommitsAsWritten` exhibits the difference.
- Menus.Menu.Show: dispatches with the capped page count (see Findings).
  `Menus.ShowDispatchAsWritten` models the code as written.
- Sleep.ShutdownAndWake: computes the deep-sleep timer without overflow (see Findings).
  `Sleep.TimerMicrosAsWritten` models the code as written.
- Menus.SelectFavourite: requires a non-empty page menu, which every page is, since it ends
  with "Return".
- Strings.DateTime: takes non-negative fields, as the RTC gives.
- Config.Configuration.SwitchPlayer: requires the selection to fit the `uint16_t` it is
  cast to.

## Findings

| source | as written | input that shows it | evidently intended | confidence | as-written member | corrected member |
|---|---|---|---|---|---|---|
| M5PaperMpdCli/menu.cpp:165-178 | after a matching row, `continue` skips `++sel`, so later rows are scanned with a held-back counter, and a band matched next reports the same row again | main menu (rows 30 pixels apart, bands 30 high), one touch at x = 300 on the pixel row shared by rows 0 and 1: row 0 ("Start/Stop Play") is committed without a first selecting touch | a touch selects the first row whose band holds it, and only a second touch on that row commits it | not executed; needs a touch exactly on the shared pixel row of the 30-pixel main menu | Menus.SingleTouchCommitsAsWritten | Menus.FirstTouchNeverCommits |
| M5PaperMpdCli/menu.cpp:58 | `Show` counts pages without the cap of 5 that `CreateMenus` applies | 101 favourites: the main menu's "Return" is row 7, which `Show` sends to page 5, a page that was never built | pages counted as in `CreateMenus`, so "Return" does nothing | not executed; needs more than 100 favourites, which one parse never gives (the SD parser keeps at most 51). But `setup` retries `load_config` until it succeeds (main.cpp:62), and each retry appends again: after an SD load that failed, flash `read_favourites` appends with no cap, and `load_FLASH_config` can then fail at `read_player_index` (a 999 read back when its put was refused). A card that works later then appends its favourites too. So the list can pass 100 | Menus.ReturnOpensMissingPageAsWritten | Menus.ShowDispatchMatchesLabels |
| M5PaperMpdCli/utils.cpp:67 | `(long)(sleep_time + 1) * 1000000L` is computed in 32-bit `long` | on USB power (on battery `M5.shutdown` at utils.cpp:63 has already cut main power), idle at 03:00:00, sleep_time = 3600: the product 3601000000 wraps, and the deep-sleep timer becomes 2^64 - 693967296 µs | the timer is (sleep_time + 1) s in microseconds, computed in 64 bits | not executed; only on USB power; assumes the ESP32's 32-bit `long` and wrap-around on overflow | Sleep.NightTimerOverflows | Sleep.SleepBranches |
