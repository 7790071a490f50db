/** Records shared by the menu, the configuration parsers and the configuration object:
    the player, favourite and network-configuration records of the firmware, and an
    Option type standing for a C string pointer that may be NULL. */
module Types {

  datatype Option<+T> = None | Some(value: T)

  /** A configured music-player daemon. `ip` is NULL (None) until it is known;
      `hostname` is only set by configurations that name the player by host. */
  datatype Player = Player(name: string, hostname: Option<string>, ip: Option<string>, port: int)

  /** A named stream URL, playable with one selection. */
  datatype Favourite = Favourite(name: string, url: string)

  /** WiFi credentials and the time-server settings. */
  datatype NetworkCfg = NetworkCfg(ssid: string, psw: string, ntpServer: string, tz: string)

  /** The configuration object's network record before anything is loaded. */
  const EmptyNetworkCfg := NetworkCfg("", "", "", "")

  /** Range of a 32-bit `int`/`long` on the ESP32. */
  const Int32Min: int := -0x8000_0000
  const Int32Max: int := 0x7FFF_FFFF

  /** Number of values of a `uint16_t`. */
  const U16: nat := 0x1_0000
}
