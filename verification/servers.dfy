/** A point-in-time snapshot of one server, as the host's `getServer` returns
    it. Optional numeric fields (`undefined` on the host) are `Option`s; every
    quantity is an exact `real`. */
module Servers {
  import opened Common

  /** A CPU core count; the host never reports fewer than one core. */
  type Cores = c: int | c >= 1 witness 1

  datatype Server = Server(
    hostname: string,
    hasAdminRights: bool,
    purchasedByPlayer: bool,
    backdoorInstalled: Option<bool>,
    maxRam: real,
    ramUsed: real,
    cpuCores: Cores,
    hackDifficulty: Option<real>,
    minDifficulty: Option<real>,
    moneyAvailable: Option<real>,
    moneyMax: Option<real>,
    requiredHackingSkill: Option<real>,
    numOpenPortsRequired: Option<real>)

  /** JavaScript truthiness of an optional number: present and non-zero. */
  predicate Truthy(x: Option<real>) {
    x.Some? && x.value != 0.0
  }

  /** A field value as `server[key]` yields it. */
  datatype Value = Str(s: string) | Num(n: real) | Bool(b: bool)

  function NumField(x: Option<real>): Option<Value> {
    match x
    case Some(v) => Some(Num(v))
    case None => None
  }

  /** `server[key]`: the value of the field named `key`, `None` for an absent
      optional field or a key that names no field. */
  function Field(s: Server, key: string): Option<Value> {
    if key == "hostname" then Some(Str(s.hostname))
    else if key == "hasAdminRights" then Some(Bool(s.hasAdminRights))
    else if key == "purchasedByPlayer" then Some(Bool(s.purchasedByPlayer))
    else if key == "backdoorInstalled" then
      (match s.backdoorInstalled case Some(b) => Some(Bool(b)) case None => None)
    else if key == "maxRam" then Some(Num(s.maxRam))
    else if key == "ramUsed" then Some(Num(s.ramUsed))
    else if key == "cpuCores" then Some(Num(s.cpuCores as real))
    else if key == "hackDifficulty" then NumField(s.hackDifficulty)
    else if key == "minDifficulty" then NumField(s.minDifficulty)
    else if key == "moneyAvailable" then NumField(s.moneyAvailable)
    else if key == "moneyMax" then NumField(s.moneyMax)
    else if key == "requiredHackingSkill" then NumField(s.requiredHackingSkill)
    else if key == "numOpenPortsRequired" then NumField(s.numOpenPortsRequired)
    else None
  }
}
