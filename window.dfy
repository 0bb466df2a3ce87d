/**
 * The main window's bookkeeping of saved destinations ("profiles") and
 * auto-knock rules ("mappings"), and how it arms the connection monitor.
 * The values its handlers read from text boxes, combo boxes and list
 * selections are parameters; message boxes become refusals carrying their
 * text; persisting the state and rebuilding the lists are left out.
 */
module Window {

  import opened Wrappers
  import opened Text
  import opened Lists
  import opened Net
  import opened IpUtils
  import opened Models
  import opened Rules
  import opened Monitor

  /** How a button handler ended: it changed the state, or showed a warning and returned. */
  datatype Outcome = Done | Refused(message: string)

  /** The ports of the mapping Save creates for a new destination. */
  const AutoMappingPort: int := 58291

  /** What the window puts in the watch-ports box when it opens. */
  const StartupWatchText: string := "58291,8291"

  /** The test the mapping handlers apply to each rule's name. */
  function MappingNamed(name: string): AutoKnockMapping -> bool {
    (m: AutoKnockMapping) => EqualsIgnoreCase(m.name, name)
  }

  /** The first rule whose name equals `name` ignoring case. */
  function FindMapping(mappings: seq<AutoKnockMapping>, name: string): (r: Option<AutoKnockMapping>)
    ensures r.None? <==> forall k :: 0 <= k < |mappings| ==> !EqualsIgnoreCase(mappings[k].name, name)
    ensures r.Some? ==> r.value in mappings && EqualsIgnoreCase(r.value.name, name)
  {
    match FirstIndex(mappings, MappingNamed(name))
    case None => None
    case Some(i) => Some(mappings[i])
  }

  /** CurrentFromUI: the trimmed name and address and the steps of the rows that have a port. */
  function ProfileFromEditor(nameText: string, ipText: string, rows: seq<StepRow>): (p: KnockProfile)
    ensures forall k :: 0 <= k < |p.steps| ==> p.steps[k].port > 0
    ensures p.name == [] <==> IsBlank(nameText)
    ensures p.ipAddress == [] <==> IsBlank(ipText)
  {
    KnockProfile(Trim(nameText), Trim(ipText), StepsFromRows(rows))
  }

  /**
   * Save's profile update: the first profile with the name ignoring case
   * takes the new address and steps and keeps its name; with none, the new
   * profile is appended.
   */
  function UpsertProfile(profiles: seq<KnockProfile>, p: KnockProfile): seq<KnockProfile> {
    match FirstIndex(profiles, NameIs(p.name))
    case Some(i) => profiles[i := KnockProfile(profiles[i].name, p.ipAddress, p.steps)]
    case None => profiles + [p]
  }

  /**
   * Save's rule update: the first rule with the profile's name becomes an
   * ExactIp rule for the profile's address and name, keeping its own name
   * and its ports unless it has none, which become [58291]; with none, such
   * a rule is appended.
   */
  function UpsertAutoMapping(mappings: seq<AutoKnockMapping>, name: string, ip: string): seq<AutoKnockMapping> {
    match FirstIndex(mappings, MappingNamed(name))
    case Some(i) =>
      var found := mappings[i];
      mappings[i := AutoKnockMapping(found.name, ExactIp, ip, if |found.ports| == 0 then [AutoMappingPort] else found.ports, name)]
    case None => mappings + [AutoKnockMapping(name, ExactIp, ip, [AutoMappingPort], name)]
  }

  /**
   * Map add/update: the first rule with the name ignoring case takes every
   * field of `m` but the name; with none, `m` is appended.
   */
  function UpsertMapping(mappings: seq<AutoKnockMapping>, m: AutoKnockMapping): seq<AutoKnockMapping> {
    match FirstIndex(mappings, MappingNamed(m.name))
    case Some(i) => mappings[i := m.(name := mappings[i].name)]
    case None => mappings + [m]
  }

  /** Every port of every rule, rule by rule, as the foreach gathers them. */
  function RulePorts(mappings: seq<AutoKnockMapping>): seq<int> {
    if mappings == [] then []
    else RulePorts(mappings[..|mappings| - 1]) + mappings[|mappings| - 1].ports
  }

  /**
   * The ports EnableMonitorFromTextbox hands to the monitor: the valid
   * ports of the text box, then every rule's ports, without repeats; 8291
   * when that leaves nothing.
   */
  function WatchPortsFor(watchText: string, mappings: seq<AutoKnockMapping>): seq<int> {
    var ports := Distinct(PortsFromText(watchText) + RulePorts(mappings));
    if ports == [] then [DefaultWatchPort] else ports
  }

  class MainWindow {
    var state: AppState
    const monitor: ConnectionMonitor

    /**
     * MainWindow(): puts "58291,8291" in the watch-ports box, takes the
     * loaded state and starts monitoring at once, as TryEnableMonitorAtStartup
     * does through EnableMonitorFromTextbox.
     */
    constructor(loaded: AppState)
      ensures state == loaded && fresh(monitor)
      ensures monitor.enabled && monitor.seen == {}
      ensures monitor.watchPorts == WatchPortsFor(StartupWatchText, loaded.mappings)
    {
      state := loaded;
      monitor := new ConnectionMonitor();
      new;
      EnableMonitor(StartupWatchText);
    }

    /**
     * BtnSave_Click: refuses a profile without a name, an address or a step;
     * otherwise upserts the profile and its ExactIp rule.
     */
    method SaveProfile(nameText: string, ipText: string, rows: seq<StepRow>) returns (outcome: Outcome)
      modifies this
      ensures var p := ProfileFromEditor(nameText, ipText, rows);
        && (IsBlank(p.name) ==> outcome == Refused("Enter a Name for this destination."))
        && (!IsBlank(p.name) && IsBlank(p.ipAddress) ==> outcome == Refused("Enter IP/Host for this destination."))
        && (!IsBlank(p.name) && !IsBlank(p.ipAddress) && |p.steps| == 0 ==> outcome == Refused("Enter at least one knock step."))
        && (outcome.Refused? ==> state == old(state))
        && (outcome.Done? <==> !IsBlank(p.name) && !IsBlank(p.ipAddress) && |p.steps| > 0)
        && (outcome.Done? ==> state == old(state).(profiles := UpsertProfile(old(state).profiles, p),
                                                   mappings := UpsertAutoMapping(old(state).mappings, p.name, p.ipAddress)))
    {
      var p := ProfileFromEditor(nameText, ipText, rows);
      if IsBlank(p.name) {
        return Refused("Enter a Name for this destination.");
      }
      if IsBlank(p.ipAddress) {
        return Refused("Enter IP/Host for this destination.");
      }
      if |p.steps| == 0 {
        return Refused("Enter at least one knock step.");
      }
      state := state.(profiles := UpsertProfile(state.profiles, p));
      state := state.(mappings := UpsertAutoMapping(state.mappings, p.name, p.ipAddress));
      outcome := Done;
    }

    /** BtnDelete_Click: removes every profile named like the selected one; rules are kept. */
    method DeleteProfile(selected: Option<KnockProfile>) returns (outcome: Outcome)
      modifies this
      ensures selected.None? ==> outcome == Refused("Select a saved destination to delete.") && state == old(state)
      ensures selected.Some? ==> (outcome == Done
        && state == old(state).(profiles := RemoveAll(old(state).profiles, NameIs(selected.value.name))))
    {
      if selected.None? {
        return Refused("Select a saved destination to delete.");
      }
      state := state.(profiles := RemoveAll(state.profiles, NameIs(selected.value.name)));
      outcome := Done;
    }

    /**
     * BtnMapAddUpdate_Click: the trimmed name must be non-empty; an
     * unreadable type is AnyIp; ExactIp and Cidr rules need a pattern; a
     * profile must be selected; the ports are the valid ones, without
     * repeats.
     */
    method SaveMapping(nameText: string, kind: Option<MappingType>, patternText: string,
                       profileName: string, portsText: string) returns (outcome: Outcome)
      modifies this
      ensures var name := Trim(nameText);
              var k := if kind.Some? then kind.value else AnyIp;
              var pattern := Trim(patternText);
        && (name == [] ==> outcome == Refused("Enter a rule name."))
        && (name != [] && k == ExactIp && pattern == [] ==>
              outcome == Refused("ExactIp mapping requires a Pattern (IP or Hostname)."))
        && (name != [] && k == Cidr && pattern == [] ==>
              outcome == Refused("CIDR mapping requires a Pattern like 192.168.1.0/24."))
        && (name != [] && (k == AnyIp || pattern != []) && IsBlank(profileName) ==>
              outcome == Refused("Select a profile to use for this mapping."))
        && (outcome.Done? <==> name != [] && (k == AnyIp || pattern != []) && !IsBlank(profileName))
        && (outcome.Refused? ==> state == old(state))
        && (outcome.Done? ==> state == old(state).(mappings := UpsertMapping(old(state).mappings,
              AutoKnockMapping(name, k, pattern, Distinct(PortsFromText(portsText)), profileName))))
    {
      var name := Trim(nameText);
      if name == [] {
        return Refused("Enter a rule name.");
      }
      var k := if kind.Some? then kind.value else AnyIp;
      var pattern := Trim(patternText);
      if k == ExactIp && pattern == [] {
        return Refused("ExactIp mapping requires a Pattern (IP or Hostname).");
      }
      if k == Cidr && pattern == [] {
        return Refused("CIDR mapping requires a Pattern like 192.168.1.0/24.");
      }
      if IsBlank(profileName) {
        return Refused("Select a profile to use for this mapping.");
      }
      var ports := Distinct(PortsFromText(portsText));
      state := state.(mappings := UpsertMapping(state.mappings, AutoKnockMapping(name, k, pattern, ports, profileName)));
      outcome := Done;
    }

    /** BtnMapDelete_Click: removes every rule named like the trimmed text. */
    method DeleteMapping(nameText: string) returns (outcome: Outcome)
      modifies this
      ensures Trim(nameText) == [] ==> outcome == Refused("Select or type the rule name to delete.") && state == old(state)
      ensures Trim(nameText) != [] ==> (outcome == Done
        && state == old(state).(mappings := RemoveAll(old(state).mappings, MappingNamed(Trim(nameText)))))
    {
      var name := Trim(nameText);
      if name == [] {
        return Refused("Select or type the rule name to delete.");
      }
      state := state.(mappings := RemoveAll(state.mappings, MappingNamed(name)));
      outcome := Done;
    }

    /**
     * EnableMonitorFromTextbox: replaces the monitor's watch list with the
     * union of the typed ports and the rules' ports, then starts it.
     */
    method EnableMonitor(watchText: string)
      modifies monitor
      ensures monitor.watchPorts == WatchPortsFor(watchText, state.mappings)
      ensures monitor.enabled && monitor.seen == old(monitor.seen)
    {
      var userPorts := PortsFromText(watchText);
      var mappingPorts: seq<int> := [];
      var i := 0;
      while i < |state.mappings|
        invariant 0 <= i <= |state.mappings|
        invariant mappingPorts == RulePorts(state.mappings[..i])
      {
        var m := state.mappings[i];
        assert state.mappings[..i + 1][..i] == state.mappings[..i];
        if |m.ports| > 0 {
          mappingPorts := mappingPorts + m.ports;
        }
        i := i + 1;
      }
      assert state.mappings[..i] == state.mappings;
      var ports := Distinct(userPorts + mappingPorts);
      if |ports| == 0 {
        ports := [DefaultWatchPort];
      }
      monitor.watchPorts := ports;
      monitor.Start();
    }

    /** BtnToggleMonitor_Click: stops an enabled monitor, otherwise enables it from the text box. */
    method ToggleMonitor(watchText: string)
      modifies monitor
      ensures monitor.enabled == !old(monitor.enabled)
      ensures monitor.seen == old(monitor.seen)
      ensures old(monitor.enabled) ==> monitor.watchPorts == old(monitor.watchPorts)
      ensures !old(monitor.enabled) ==> monitor.watchPorts == WatchPortsFor(watchText, state.mappings)
    {
      if monitor.enabled {
        monitor.Stop();
        return;
      }
      EnableMonitor(watchText);
    }
  }

  // ----- what the edits promise -----

  /**
   * After Save's profile update, looking the name up finds a profile with
   * the new address and steps: the updated one, which kept its stored name,
   * or the appended one. Profiles with other names stay where they were.
   */
  lemma UpsertProfileSpec(profiles: seq<KnockProfile>, p: KnockProfile)
    ensures var r := UpsertProfile(profiles, p);
      && FindProfile(r, p.name).Some?
      && FindProfile(r, p.name).value.ipAddress == p.ipAddress
      && FindProfile(r, p.name).value.steps == p.steps
      && (FindProfile(profiles, p.name).Some? ==>
            |r| == |profiles| && FindProfile(r, p.name).value.name == FindProfile(profiles, p.name).value.name)
      && (FindProfile(profiles, p.name).None? ==> r == profiles + [p])
      && (forall k :: 0 <= k < |profiles| && !EqualsIgnoreCase(profiles[k].name, p.name) ==> r[k] == profiles[k])
  {
    var r := UpsertProfile(profiles, p);
    match FirstIndex(profiles, NameIs(p.name))
    case Some(i) =>
      assert NameIs(p.name)(r[i]);
      forall k | 0 <= k < i ensures !NameIs(p.name)(r[k]) {
        assert r[k] == profiles[k];
      }
      FirstIndexAt(r, NameIs(p.name), i);
      FindProfileFirst(profiles, p.name, i);
    case None =>
      assert NameIs(p.name)(r[|profiles|]);
      forall k | 0 <= k < |profiles| ensures !NameIs(p.name)(r[k]) {
        assert r[k] == profiles[k];
      }
      FirstIndexAt(r, NameIs(p.name), |profiles|);
  }

  /** Saving the same profile twice is the same as saving it once. */
  lemma UpsertProfileIdempotent(profiles: seq<KnockProfile>, p: KnockProfile)
    ensures UpsertProfile(UpsertProfile(profiles, p), p) == UpsertProfile(profiles, p)
  {
    var r := UpsertProfile(profiles, p);
    match FirstIndex(profiles, NameIs(p.name))
    case Some(i) =>
      assert NameIs(p.name)(r[i]);
      forall k | 0 <= k < i ensures !NameIs(p.name)(r[k]) {
        assert r[k] == profiles[k];
      }
      FirstIndexAt(r, NameIs(p.name), i);
    case None =>
      assert NameIs(p.name)(r[|profiles|]);
      forall k | 0 <= k < |profiles| ensures !NameIs(p.name)(r[k]) {
        assert r[k] == profiles[k];
      }
      FirstIndexAt(r, NameIs(p.name), |profiles|);
  }

  /**
   * After Save's rule update, the first rule with the profile's name is an
   * ExactIp rule for the profile's address and name, with ports: [58291]
   * when it is new or had none, its old ports otherwise.
   */
  lemma UpsertAutoMappingSpec(mappings: seq<AutoKnockMapping>, name: string, ip: string)
    ensures var r := UpsertAutoMapping(mappings, name, ip);
      && FindMapping(r, name).Some?
      && FindMapping(r, name).value.kind == ExactIp
      && FindMapping(r, name).value.pattern == ip
      && FindMapping(r, name).value.profileName == name
      && (FindMapping(mappings, name).None? || FindMapping(mappings, name).value.ports == [] ==>
            FindMapping(r, name).value.ports == [AutoMappingPort])
      && (FindMapping(mappings, name).Some? && FindMapping(mappings, name).value.ports != [] ==>
            FindMapping(r, name).value.ports == FindMapping(mappings, name).value.ports)
      && (forall k :: 0 <= k < |mappings| && !EqualsIgnoreCase(mappings[k].name, name) ==> r[k] == mappings[k])
  {
    var r := UpsertAutoMapping(mappings, name, ip);
    match FirstIndex(mappings, MappingNamed(name))
    case Some(i) =>
      assert MappingNamed(name)(r[i]);
      forall k | 0 <= k < i ensures !MappingNamed(name)(r[k]) {
        assert r[k] == mappings[k];
      }
      FirstIndexAt(r, MappingNamed(name), i);
    case None =>
      assert MappingNamed(name)(r[|mappings|]);
      forall k | 0 <= k < |mappings| ensures !MappingNamed(name)(r[k]) {
        assert r[k] == mappings[k];
      }
      FirstIndexAt(r, MappingNamed(name), |mappings|);
  }

  /**
   * After a rule is added or updated, looking its name up finds a rule with
   * the new type, pattern, ports and profile; rules with other names stay
   * where they were.
   */
  lemma UpsertMappingSpec(mappings: seq<AutoKnockMapping>, m: AutoKnockMapping)
    ensures var r := UpsertMapping(mappings, m);
      && FindMapping(r, m.name).Some?
      && FindMapping(r, m.name).value == m.(name := FindMapping(r, m.name).value.name)
      && (FindMapping(mappings, m.name).Some? ==>
            |r| == |mappings| && FindMapping(r, m.name).value.name == FindMapping(mappings, m.name).value.name)
      && (FindMapping(mappings, m.name).None? ==> r == mappings + [m])
      && (forall k :: 0 <= k < |mappings| && !EqualsIgnoreCase(mappings[k].name, m.name) ==> r[k] == mappings[k])
  {
    var r := UpsertMapping(mappings, m);
    match FirstIndex(mappings, MappingNamed(m.name))
    case Some(i) =>
      assert MappingNamed(m.name)(r[i]);
      forall k | 0 <= k < i ensures !MappingNamed(m.name)(r[k]) {
        assert r[k] == mappings[k];
      }
      FirstIndexAt(r, MappingNamed(m.name), i);
    case None =>
      assert MappingNamed(m.name)(r[|mappings|]);
      forall k | 0 <= k < |mappings| ensures !MappingNamed(m.name)(r[k]) {
        assert r[k] == mappings[k];
      }
      FirstIndexAt(r, MappingNamed(m.name), |mappings|);
  }

  /** Saving the same rule twice is the same as saving it once. */
  lemma UpsertMappingIdempotent(mappings: seq<AutoKnockMapping>, m: AutoKnockMapping)
    ensures UpsertMapping(UpsertMapping(mappings, m), m) == UpsertMapping(mappings, m)
  {
    var r := UpsertMapping(mappings, m);
    match FirstIndex(mappings, MappingNamed(m.name))
    case Some(i) =>
      assert MappingNamed(m.name)(r[i]);
      forall k | 0 <= k < i ensures !MappingNamed(m.name)(r[k]) {
        assert r[k] == mappings[k];
      }
      FirstIndexAt(r, MappingNamed(m.name), i);
    case None =>
      assert MappingNamed(m.name)(r[|mappings|]);
      forall k | 0 <= k < |mappings| ensures !MappingNamed(m.name)(r[k]) {
        assert r[k] == mappings[k];
      }
      FirstIndexAt(r, MappingNamed(m.name), |mappings|);
  }

  /** After Delete no profile has the name, and every profile with another name is still there. */
  lemma DeleteProfileSpec(profiles: seq<KnockProfile>, name: string)
    ensures var r := RemoveAll(profiles, NameIs(name));
      && FindProfile(r, name).None?
      && forall q :: q in profiles && !EqualsIgnoreCase(q.name, name) ==> q in r
  {
    var r := RemoveAll(profiles, NameIs(name));
    forall k | 0 <= k < |r| ensures !EqualsIgnoreCase(r[k].name, name) {
      assert r[k] in r;
      assert !NameIs(name)(r[k]);
    }
    forall q | q in profiles && !EqualsIgnoreCase(q.name, name) ensures q in r {
      assert !NameIs(name)(q);
    }
  }

  /** After a rule is deleted no rule has the name, and every rule with another name is still there. */
  lemma DeleteMappingSpec(mappings: seq<AutoKnockMapping>, name: string)
    ensures var r := RemoveAll(mappings, MappingNamed(name));
      && FindMapping(r, name).None?
      && forall m :: m in mappings && !EqualsIgnoreCase(m.name, name) ==> m in r
  {
    var r := RemoveAll(mappings, MappingNamed(name));
    forall k | 0 <= k < |r| ensures !EqualsIgnoreCase(r[k].name, name) {
      assert r[k] in r;
      assert !MappingNamed(name)(r[k]);
    }
    forall m | m in mappings && !EqualsIgnoreCase(m.name, name) ensures m in r {
      assert !MappingNamed(name)(m);
    }
  }

  /** The profile a resolution returns is one of the stored profiles. */
  lemma ResolvedProfileStored(state: AppState, remoteIp: string, remotePort: int, dns: string -> DnsResult)
    ensures TryResolveProfileFor(state, remoteIp, remotePort, dns).Some? ==>
      TryResolveProfileFor(state, remoteIp, remotePort, dns).value in state.profiles
  {
    TryResolveProfileForSpec(state, remoteIp, remotePort, dns);
    var c := CandidateOf(state.profiles, remoteIp, remotePort, dns);
    if TryResolveProfileFor(state, remoteIp, remotePort, dns).Some? {
      var i :| Wins(state.mappings, c, i) && TryResolveProfileFor(state, remoteIp, remotePort, dns) == c(state.mappings[i]);
      CandidateMeaning(state.profiles, state.mappings[i], remoteIp, remotePort, dns);
    }
  }

  /**
   * A deleted destination is never knocked automatically again: rules that
   * still name it no longer resolve to it.
   */
  lemma DeletedProfileNeverResolved(state: AppState, name: string, remoteIp: string, remotePort: int,
                                    dns: string -> DnsResult)
    ensures var after := state.(profiles := RemoveAll(state.profiles, NameIs(name)));
      TryResolveProfileFor(after, remoteIp, remotePort, dns).Some? ==>
        !EqualsIgnoreCase(TryResolveProfileFor(after, remoteIp, remotePort, dns).value.name, name)
  {
    var after := state.(profiles := RemoveAll(state.profiles, NameIs(name)));
    ResolvedProfileStored(after, remoteIp, remotePort, dns);
    if TryResolveProfileFor(after, remoteIp, remotePort, dns).Some? {
      assert !NameIs(name)(TryResolveProfileFor(after, remoteIp, remotePort, dns).value);
    }
  }

  /**
   * Saving a destination whose address is an IPv4 literal arms auto-knock
   * for it: an outbound connection to that address on any port of its rule
   * (58291 for a new rule) resolves to a profile.
   */
  lemma SavedDestinationAutoKnocks(state: AppState, p: KnockProfile, addr: IpAddress, port: int,
                                   dns: string -> DnsResult)
    requires !IsBlank(p.name) && ParseAddress(p.ipAddress) == Some(addr) && addr.V4?
    requires var rule := FindMapping(UpsertAutoMapping(state.mappings, p.name, p.ipAddress), p.name);
             rule.Some? && port in rule.value.ports
    ensures var saved := state.(profiles := UpsertProfile(state.profiles, p),
                                mappings := UpsertAutoMapping(state.mappings, p.name, p.ipAddress));
      TryResolveProfileFor(saved, AddressText(addr), port, dns).Some?
  {
    var saved := state.(profiles := UpsertProfile(state.profiles, p),
                        mappings := UpsertAutoMapping(state.mappings, p.name, p.ipAddress));
    UpsertAutoMappingSpec(state.mappings, p.name, p.ipAddress);
    UpsertProfileSpec(state.profiles, p);
    var e := FirstIndex(saved.mappings, MappingNamed(p.name)).value;
    var m := saved.mappings[e];
    ParseAddressCanonical(p.ipAddress, addr);
    AddressTextPlain(addr);
    assert HostOrIpMatches(AddressText(addr), m.pattern, dns);
    CandidateMeaning(saved.profiles, m, AddressText(addr), port, dns);
    ExactIpFirst(saved, AddressText(addr), port, dns, e);
  }

  /** A port is among the rules' ports exactly when some rule lists it. */
  lemma {:induction false} RulePortsMembers(mappings: seq<AutoKnockMapping>, port: int)
    ensures port in RulePorts(mappings) <==> exists k :: 0 <= k < |mappings| && port in mappings[k].ports
  {
    if mappings != [] {
      var n := |mappings| - 1;
      RulePortsMembers(mappings[..n], port);
      if port in mappings[n].ports {
        assert port in RulePorts(mappings);
      }
      if exists k :: 0 <= k < n && port in mappings[..n][k].ports {
        var k :| 0 <= k < n && port in mappings[..n][k].ports;
        assert mappings[k] == mappings[..n][k];
      }
      if exists k :: 0 <= k < |mappings| && port in mappings[k].ports {
        var k :| 0 <= k < |mappings| && port in mappings[k].ports;
        if k < n {
          assert mappings[..n][k] == mappings[k];
        }
      }
    }
  }

  /**
   * The watch list is never empty and has no repeats; it holds every valid
   * typed port and every port of every rule, and nothing else but the
   * default 8291, which it holds alone when there is nothing else.
   */
  lemma WatchPortsForSpec(watchText: string, mappings: seq<AutoKnockMapping>)
    ensures var w := WatchPortsFor(watchText, mappings);
      && |w| > 0 && NoDuplicates(w)
      && (forall port :: port in PortsFromText(watchText) ==> port in w)
      && (forall k, port :: 0 <= k < |mappings| && port in mappings[k].ports ==> port in w)
      && (forall port :: port in w ==>
            port in PortsFromText(watchText) || (exists k :: 0 <= k < |mappings| && port in mappings[k].ports)
            || (w == [DefaultWatchPort] && port == DefaultWatchPort))
      && (PortsFromText(watchText) == [] && (forall k :: 0 <= k < |mappings| ==> mappings[k].ports == []) ==>
            w == [DefaultWatchPort])
  {
    var w := WatchPortsFor(watchText, mappings);
    var all := PortsFromText(watchText) + RulePorts(mappings);
    forall k, port | 0 <= k < |mappings| && port in mappings[k].ports ensures port in w {
      RulePortsMembers(mappings, port);
    }
    forall port | port in w
      ensures port in PortsFromText(watchText) || (exists k :: 0 <= k < |mappings| && port in mappings[k].ports)
              || (w == [DefaultWatchPort] && port == DefaultWatchPort)
    {
      RulePortsMembers(mappings, port);
    }
    if PortsFromText(watchText) == [] && forall k :: 0 <= k < |mappings| ==> mappings[k].ports == [] {
      if RulePorts(mappings) != [] {
        RulePortsMembers(mappings, RulePorts(mappings)[0]);
      }
      assert all == [];
    }
  }

  /** The startup text is 58291 and 8291 as the mapping list writes ports. */
  lemma StartupWatchTextWritten()
    ensures PortsText([AutoMappingPort, DefaultWatchPort]) == StartupWatchText
  {
    StartupPortTexts();
    assert Join(["8291"], ',') == "8291";
  }

  /** The decimal texts of the two startup ports. */
  lemma StartupPortTexts()
    ensures PortTexts([AutoMappingPort, DefaultWatchPort]) == ["58291", "8291"]
  {
    assert NatText(8) == "8";
    assert NatText(82) == "82";
    assert NatText(829) == "829";
    assert NatText(8291) == "8291";
    assert NatText(5) == "5";
    assert NatText(58) == "58";
    assert NatText(582) == "582";
    assert NatText(5829) == "5829";
    assert NatText(58291) == "58291";
  }

  /** The startup text reads as the two ports 58291 and 8291. */
  lemma StartupWatchTextReads()
    ensures PortsFromText(StartupWatchText) == [AutoMappingPort, DefaultWatchPort]
  {
    StartupWatchTextWritten();
    PortsTextRoundTrip([AutoMappingPort, DefaultWatchPort]);
  }

  /** The window opens watching 58291 and 8291 whatever the rules. */
  lemma StartupWatchPorts(mappings: seq<AutoKnockMapping>)
    ensures AutoMappingPort in WatchPortsFor(StartupWatchText, mappings)
    ensures DefaultWatchPort in WatchPortsFor(StartupWatchText, mappings)
  {
    StartupWatchTextReads();
    WatchPortsForSpec(StartupWatchText, mappings);
  }

  /** With no rules, the window opens watching exactly 58291 and 8291, in that order. */
  lemma StartupWatchPortsWithoutRules()
    ensures WatchPortsFor(StartupWatchText, []) == [AutoMappingPort, DefaultWatchPort]
  {
    var ports := [AutoMappingPort, DefaultWatchPort];
    StartupWatchTextReads();
    DistinctOfDistinct(ports);
    assert PortsFromText(StartupWatchText) + RulePorts([]) == ports;
  }
}
