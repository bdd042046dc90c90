/** The Wi-Fi daemon (os-base/agent/wpa.py) as two tables of network blocks, the live one and the one on
    disk, and the control commands the agents send it. */
module Supplicant {

  /** One network block; ap stands for mode=2. */
  datatype Block = Block(ssid: string, ap: bool, psk: string, keyless: bool, priority: int, enabled: bool)

  type Config = map<nat, Block>

  datatype Daemon = Daemon(live: Config, disk: Config)

  datatype Command =
    | AddNetwork(id: nat)
    | SetSsid(id: nat, ssid: string)
    | SetPsk(id: nat, psk: string)
    | SetKeyless(id: nat)
    | SetApMode(id: nat)
    | SetPriority(id: nat, priority: int)
    | SetFixed(id: nat, field: string)
    | Enable(id: nat)
    | Select(id: nat)
    | Remove(id: nat)
    | Save
    | Reconfigure

  /** How one command ends: carried out and said so, carried out with the answer lost, or not carried
      out. The last two raise. */
  datatype Reply = Obeyed | Lost | Refused

  const EMPTY := Block("", false, "", false, 0, false)

  /** Only the chosen block stays enabled. */
  function OnlyEnabled(c: Config, chosen: nat): Config {
    map id | id in c :: c[id].(enabled := id == chosen)
  }

  /** What a command does once the daemon carries it out; naming an unknown block does nothing. */
  function Exec(d: Daemon, c: Command): Daemon {
    match c
    case AddNetwork(id) => if id in d.live then d else d.(live := d.live[id := EMPTY])
    case Select(id) => if id in d.live then d.(live := OnlyEnabled(d.live, id)) else d
    case Remove(id) => d.(live := d.live - {id})
    case Save => d.(disk := d.live)
    case Reconfigure => d.(live := d.disk)
    case _ => if c.id in d.live then d.(live := d.live[c.id := Changed(d.live[c.id], c)]) else d
  }

  function Changed(b: Block, c: Command): Block {
    match c
    case SetSsid(_, ssid) => b.(ssid := ssid)
    case SetPsk(_, psk) => b.(psk := psk)
    case SetKeyless(_) => b.(keyless := true)
    case SetApMode(_) => b.(ap := true)
    case SetPriority(_, priority) => b.(priority := priority)
    case Enable(_) => b.(enabled := true)
    case _ => b
  }

  /** No access-point block. */
  ghost predicate NoAp(c: Config) {
    forall id :: id in c ==> !c[id].ap
  }

  /** A command that neither creates access-point blocks nor writes the file. */
  predicate Harmless(c: Command) {
    !c.SetApMode? && !c.Save?
  }
}
