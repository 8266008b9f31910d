/**
 * Validation of the `CONNECTION` block of a register file and the choice of
 * the role it configures. The block is one flat mapping with the keys
 * `type`, `unit`, `address`, `mode` (and `baudrate` for serial links).
 * A block with `mode` "slave" describes the remote field device, so it
 * configures the bridge's client side; a block with `mode` "master"
 * describes the supervisory host, so it configures the host side.
 */
module Connection {
  import opened Support

  /** A value of the connection block, as the JSON register file provides it. */
  datatype ConfigValue =
    | Str(s: string)
    | Int(i: int)
    | Bool(b: bool)
    /** Any other JSON value (null, list, object, float), with its Python truthiness. */
    | Other(truthy: bool)

  /** A connection block: key -> value. */
  type Config = map<string, ConfigValue>

  /** The errors raised while adopting connection settings. */
  datatype BridgeError =
    | MissingBaudrate
    | UnknownConnectionType(connType: string)
    | UnknownConnectionUnit
    | UnknownConnectionMode(mode: string)
    /** `.lower()` applied to a value that is not a string (an AttributeError in the source). */
    | NotText(key: string)
    | ClientUnitNotInt
    | HostUnitNotInt

  /** The keys a block must have to be adopted at all. */
  const RequiredKeys: seq<string> := ["type", "unit", "address", "mode"]

  predicate HasRequiredKeys(cfg: Config)
  {
    forall k :: k in RequiredKeys ==> k in cfg
  }

  /** `isinstance(v, int)`: a Python boolean is an integer too. */
  predicate IsInt(v: ConfigValue)
  {
    v.Int? || v.Bool?
  }

  /** The integer an `isinstance(v, int)` value stands for. */
  function IntOf(v: ConfigValue): int
    requires IsInt(v)
  {
    if v.Int? then v.i else if v.b then 1 else 0
  }

  /** Python truthiness of a value. */
  predicate Truthy(v: ConfigValue)
  {
    match v
    case Str(s) => s != ""
    case Int(i) => i != 0
    case Bool(b) => b
    case Other(t) => t
  }

  /** The lower-cased text of `key`, when its value is a string. */
  function LowerOf(cfg: Config, key: string): Option<string>
    requires key in cfg
  {
    if cfg[key].Str? then Some(Lower(cfg[key].s)) else None
  }

  /** What loading the connection settings does. */
  datatype ConnOutcome =
    /** A warning is logged and no setting changes. */
    | Warned
    /** The block becomes the client-side settings and `unit` the client unit. */
    | AdoptClient(settings: Config, unit: int)
    /** The block becomes the host-side settings and `unit` the host unit. */
    | AdoptHost(settings: Config, unit: int)
    /** An error is raised and no setting changes. */
    | Rejected(error: BridgeError)

  /**
   * The outcome of loading the `CONNECTION` value of the register
   * definitions (`None` when the key is absent). Checks run in the order
   * type, unit, mode; the first failing check decides the error.
   */
  function ExtractConnection(connection: Option<Config>): (r: ConnOutcome)
    // adopted only with all four required keys, and then the whole block is adopted
    ensures r.AdoptClient? || r.AdoptHost? ==>
      connection.Some? && HasRequiredKeys(connection.value) && r.settings == connection.value
    // missing (or empty) block, or a missing required key: only a warning
    ensures r == Warned <==> connection.None? || !HasRequiredKeys(connection.value)
    // a serial link needs a baud rate
    ensures connection.Some? && HasRequiredKeys(connection.value) &&
            LowerOf(connection.value, "type") == Some("rtu") && "baudrate" !in connection.value ==>
            r == Rejected(MissingBaudrate)
    // any type other than rtu or tcp is rejected
    ensures connection.Some? && HasRequiredKeys(connection.value) &&
            LowerOf(connection.value, "type").Some? &&
            LowerOf(connection.value, "type").value !in {"rtu", "tcp"} ==>
            r == Rejected(UnknownConnectionType(LowerOf(connection.value, "type").value))
    // whatever is adopted passed the type and unit checks
    ensures r.AdoptClient? || r.AdoptHost? ==>
      && LowerOf(r.settings, "type") in {Some("rtu"), Some("tcp")}
      && (LowerOf(r.settings, "type") == Some("rtu") ==> "baudrate" in r.settings)
      && IsInt(r.settings["unit"]) && r.unit == IntOf(r.settings["unit"])
    // the role follows the mode, inverted: slave -> client side, master -> host side
    ensures r.AdoptClient? <==> !r.Rejected? && !r.Warned? && LowerOf(connection.value, "mode") == Some("slave")
    ensures r.AdoptHost? <==> !r.Rejected? && !r.Warned? && LowerOf(connection.value, "mode") == Some("master")
  {
    if connection.None? || !HasRequiredKeys(connection.value) then Warned
    else
      var cfg := connection.value;
      var connType := LowerOf(cfg, "type");
      if connType.None? then Rejected(NotText("type"))
      else if connType.value == "rtu" && "baudrate" !in cfg then Rejected(MissingBaudrate)
      else if connType.value != "rtu" && connType.value != "tcp" then Rejected(UnknownConnectionType(connType.value))
      else if !IsInt(cfg["unit"]) then Rejected(UnknownConnectionUnit)
      else
        var mode := LowerOf(cfg, "mode");
        if mode.None? then Rejected(NotText("mode"))
        else if mode.value == "slave" then AdoptClient(cfg, IntOf(cfg["unit"]))
        else if mode.value == "master" then AdoptHost(cfg, IntOf(cfg["unit"]))
        else Rejected(UnknownConnectionMode(mode.value))
  }

  /** A unit that is not an integer is rejected once the type is acceptable. */
  lemma NonIntUnitRejected(cfg: Config)
    requires HasRequiredKeys(cfg)
    requires LowerOf(cfg, "type") == Some("tcp") || (LowerOf(cfg, "type") == Some("rtu") && "baudrate" in cfg)
    requires !IsInt(cfg["unit"])
    ensures ExtractConnection(Some(cfg)) == Rejected(UnknownConnectionUnit)
  {
  }

  /** With a valid type and unit, any mode other than slave or master is rejected. */
  lemma UnknownModeRejected(cfg: Config)
    requires HasRequiredKeys(cfg)
    requires LowerOf(cfg, "type") == Some("tcp") || (LowerOf(cfg, "type") == Some("rtu") && "baudrate" in cfg)
    requires IsInt(cfg["unit"])
    requires LowerOf(cfg, "mode").Some? && LowerOf(cfg, "mode").value !in {"slave", "master"}
    ensures ExtractConnection(Some(cfg)) == Rejected(UnknownConnectionMode(LowerOf(cfg, "mode").value))
  {
  }
}
