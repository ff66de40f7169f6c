/** The atomic gene: one building's membership in a thermal network (class `Connection`). */
module Connections {
  import opened Wrappers

  /** The domain parameters the source keeps as class variables of `Connection`:
      legal network ids are `range(maxNetworks + 1)`, `buildings` are the known building codes and
      `zeroDemand` the buildings whose demand profile is zero everywhere. */
  datatype Config = Config(maxNetworks: int, buildings: seq<string>, zeroDemand: set<string>)

  /** The failures the genome layer raises (all `ValueError`s, except where noted). */
  datatype Error =
    | NotInRange(value: int)                       // network id outside `possible_connections`
    | UnknownBuilding(code: string)                // building code not in the domain
    | LengthMismatch(expected: int, given: int)    // `values` setter given a list of the wrong length
    | IndexOutOfRange(index: int)                  // Python `IndexError`
    | UnsupportedMutation(name: string)
    | UnsupportedCrossover(name: string)
    | NotAGenome                                   // Python `AttributeError`: `reset` called on an int

  /** One building's membership. The building code `""` stands for Python's `None`;
      network `0` means stand-alone. */
  datatype Connection = Connection(building: string, network: int)

  /** `initialize_class_variables`: the building codes in domain order, the network bound, and the
      zero-demand buildings (decided externally from the demand profiles, passed here as flags). */
  function Initialize(maxNetworks: int, codes: seq<string>, idle: seq<bool>): (cfg: Config)
    requires |idle| == |codes|
    ensures cfg.maxNetworks == maxNetworks && cfg.buildings == codes
    ensures forall b :: b in cfg.zeroDemand <==> exists i :: 0 <= i < |codes| && idle[i] && codes[i] == b
  {
    Config(maxNetworks, codes, set i | 0 <= i < |codes| && idle[i] :: codes[i])
  }

  /** Membership in `possible_connections`, i.e. `range(maxNetworks + 1)`. */
  predicate InRange(cfg: Config, v: int)
  {
    0 <= v <= cfg.maxNetworks
  }

  /** The values the network setter lets through: a falsy `0`, or a member of the legal range. */
  predicate Accepted(cfg: Config, v: int)
  {
    v == 0 || InRange(cfg, v)
  }

  /** The value actually stored for `building` when `v` is assigned: zero-demand buildings keep `0`. */
  function Stored(cfg: Config, building: string, v: int): int
  {
    if building in cfg.zeroDemand then 0 else v
  }

  /** The state of `c` after a successful assignment of `v` through the network setter. */
  function Write(cfg: Config, c: Connection, v: int): Connection
  {
    c.(network := Stored(cfg, c.building, v))
  }

  /** Everything a `Connection` built through its setters satisfies. */
  predicate GeneValid(cfg: Config, c: Connection)
  {
    && (c.building == "" || c.building in cfg.buildings)
    && Accepted(cfg, c.network)
    && (c.building in cfg.zeroDemand ==> c.network == 0)
  }

  /** The `network_connection` setter. */
  function SetNetwork(cfg: Config, c: Connection, v: int): (r: Result<Connection, Error>)
    ensures r.Ok? <==> (v == 0 || 0 <= v <= cfg.maxNetworks)
    ensures r.Err? ==> r.error == NotInRange(v)
    ensures r.Ok? ==> r.value.building == c.building
    ensures r.Ok? && c.building in cfg.zeroDemand ==> r.value.network == 0
    ensures r.Ok? && c.building !in cfg.zeroDemand ==> r.value.network == v
    ensures r.Ok? && GeneValid(cfg, c) ==> GeneValid(cfg, r.value)
  {
    if v != 0 && !InRange(cfg, v) then Err(NotInRange(v))
    else Ok(Write(cfg, c, v))
  }

  /** The `building` setter. */
  function SetBuilding(cfg: Config, code: string): (r: Result<string, Error>)
    ensures r.Ok? <==> (code == "" || code in cfg.buildings)
    ensures r.Ok? ==> r.value == code
    ensures r.Err? ==> r.error == UnknownBuilding(code)
  {
    if code != "" && code !in cfg.buildings then Err(UnknownBuilding(code))
    else Ok(code)
  }

  /** `Connection(network_connection, building_code)`: the building is set first, then the network id
      goes through its setter, so the zero-demand pin sees the new building. */
  function NewConnection(cfg: Config, network: int, building: string): (r: Result<Connection, Error>)
    ensures r.Ok? <==> (building == "" || building in cfg.buildings) && Accepted(cfg, network)
    ensures !(building == "" || building in cfg.buildings) ==> r == Err(UnknownBuilding(building))
    ensures r.Ok? ==> GeneValid(cfg, r.value) && r.value.building == building
    ensures r.Ok? && building !in cfg.zeroDemand ==> r.value.network == network
  {
    match SetBuilding(cfg, building)
    case Err(e) => Err(e)
    case Ok(b) => SetNetwork(cfg, Connection(b, 0), network)
  }

  /** The range check accepts both ends of `[0, maxNetworks]` and rejects the ids just outside. */
  lemma RangeEnds(cfg: Config, c: Connection)
    requires cfg.maxNetworks >= 0
    ensures SetNetwork(cfg, c, 0).Ok? && SetNetwork(cfg, c, cfg.maxNetworks).Ok?
    ensures SetNetwork(cfg, c, cfg.maxNetworks + 1) == Err(NotInRange(cfg.maxNetworks + 1))
    ensures SetNetwork(cfg, c, -1) == Err(NotInRange(-1))
  {
  }
}
