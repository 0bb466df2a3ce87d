/**
 * The persisted data of the port knocker: knock steps, knock profiles,
 * auto-knock mappings and the application state that holds them, with the
 * defaults their declarations give.
 */
module Models {

  /** The two transports a knock step can use. */
  datatype KnockProtocol = TCP | UDP

  /** One knock: a port and the transport to hit it with. */
  datatype KnockStep = KnockStep(port: int, protocol: KnockProtocol)

  /** A saved destination: its name, address or host name, and knock sequence. */
  datatype KnockProfile = KnockProfile(name: string, ipAddress: string, steps: seq<KnockStep>)

  /** How an auto-knock mapping matches the destination address. */
  datatype MappingType = AnyIp | ExactIp | Cidr

  /**
   * An auto-knock rule: which destinations (kind and pattern) and which
   * destination ports (empty means any port) trigger which saved profile.
   */
  datatype AutoKnockMapping = AutoKnockMapping(
    name: string,
    kind: MappingType,
    pattern: string,
    ports: seq<int>,
    profileName: string)

  /** The root of the persisted state. */
  datatype AppState = AppState(
    version: int,
    profiles: seq<KnockProfile>,
    mappings: seq<AutoKnockMapping>)

  /** `new KnockStep()`: port 0 over TCP, a placeholder that is never sent. */
  function DefaultStep(): (s: KnockStep)
    ensures s.port == 0 && s.protocol == TCP
  {
    KnockStep(0, TCP)
  }

  /** `new KnockProfile()`: no name, no address, four placeholder steps. */
  function NewProfile(): (p: KnockProfile)
    ensures p.name == "" && p.ipAddress == ""
    ensures |p.steps| == 4 && forall i :: 0 <= i < 4 ==> p.steps[i] == DefaultStep()
  {
    KnockProfile("", "", [DefaultStep(), DefaultStep(), DefaultStep(), DefaultStep()])
  }

  /** `new AutoKnockMapping()`: an unnamed AnyIp rule for any port and no profile. */
  function DefaultMapping(): (m: AutoKnockMapping)
    ensures m.kind == AnyIp && m.name == "" && m.pattern == ""
    ensures m.ports == [] && m.profileName == ""
  {
    AutoKnockMapping("", AnyIp, "", [], "")
  }

  /** `new AppState()`: version 1, no profiles, no mappings. */
  function NewAppState(): (s: AppState)
    ensures s.version == 1 && s.profiles == [] && s.mappings == []
  {
    AppState(1, [], [])
  }
}
