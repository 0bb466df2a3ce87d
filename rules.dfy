/**
 * The auto-knock decisions of the main window that only compute: which saved
 * profile a rule leads to, how an ExactIp pattern is compared with the
 * observed address, which profile TryResolveProfileFor picks for an outbound
 * connection, which target the monitor's event handler knocks, the port
 * lists read from text boxes, and the four knock-step rows of the editor.
 */
module Rules {

  import opened Wrappers
  import opened Text
  import opened Lists
  import opened Net
  import opened IpUtils
  import opened Models

  // ----- profiles by name -----

  /**
   * The first profile whose name equals `name` ignoring case
   * (Profiles.FirstOrDefault with StringComparison.OrdinalIgnoreCase).
   */
  function FindProfile(profiles: seq<KnockProfile>, name: string): (r: Option<KnockProfile>)
    ensures r.None? <==> forall k :: 0 <= k < |profiles| ==> !EqualsIgnoreCase(profiles[k].name, name)
    ensures r.Some? ==> r.value in profiles && EqualsIgnoreCase(r.value.name, name)
  {
    match FirstIndex(profiles, NameIs(name))
    case None => None
    case Some(i) => Some(profiles[i])
  }

  /** The test FirstOrDefault applies to each profile. */
  function NameIs(name: string): KnockProfile -> bool {
    (p: KnockProfile) => EqualsIgnoreCase(p.name, name)
  }

  /** Of several profiles with the name, FindProfile gives the one stored first. */
  lemma FindProfileFirst(profiles: seq<KnockProfile>, name: string, i: nat)
    requires i < |profiles| && EqualsIgnoreCase(profiles[i].name, name)
    requires forall k :: 0 <= k < i ==> !EqualsIgnoreCase(profiles[k].name, name)
    ensures FindProfile(profiles, name) == Some(profiles[i])
  {
    assert NameIs(name)(profiles[i]);
  }

  // ----- HostOrIpMatches -----

  /** Whether some resolved address is IPv4 and its text equals `actualIp` ignoring case, scanning in order. */
  function ResolvedMatch(addresses: seq<IpAddress>, actualIp: string): (r: bool)
    ensures r <==> exists i :: 0 <= i < |addresses| && addresses[i].V4?
                                && EqualsIgnoreCase(AddressText(addresses[i]), actualIp)
  {
    if addresses == [] then false
    else if addresses[0].V4? && EqualsIgnoreCase(AddressText(addresses[0]), actualIp) then true
    else
      var rest := ResolvedMatch(addresses[1..], actualIp);
      assert rest ==> exists i :: 0 <= i < |addresses| && addresses[i].V4?
                                  && EqualsIgnoreCase(AddressText(addresses[i]), actualIp);
      rest
  }

  /**
   * HostOrIpMatches: an ExactIp pattern against the observed remote address.
   * A blank pattern never matches; a pattern that is an address literal is
   * compared as text, ignoring case, with no lookup; any other pattern is a
   * host name, which matches when one of its IPv4 addresses prints as the
   * observed address, and a failed lookup is no match.
   */
  function HostOrIpMatches(actualIp: string, pattern: string, dns: string -> DnsResult): (r: bool)
    ensures IsBlank(pattern) ==> !r
    ensures !IsBlank(pattern) && ParseAddress(Trim(pattern)).Some? ==>
              (r <==> EqualsIgnoreCase(actualIp, Trim(pattern)))
    ensures !IsBlank(pattern) && ParseAddress(Trim(pattern)).None? && dns(Trim(pattern)).DnsFailure? ==> !r
    ensures !IsBlank(pattern) && ParseAddress(Trim(pattern)).None? && dns(Trim(pattern)).Resolved? ==>
              (r <==> exists i :: 0 <= i < |dns(Trim(pattern)).addresses|
                                  && dns(Trim(pattern)).addresses[i].V4?
                                  && EqualsIgnoreCase(AddressText(dns(Trim(pattern)).addresses[i]), actualIp))
  {
    if IsBlank(pattern) then false
    else
      var pat := Trim(pattern);
      if ParseAddress(pat).Some? then EqualsIgnoreCase(actualIp, pat)
      else
        match dns(pat)
        case DnsFailure(_) => false
        case Resolved(addresses) => ResolvedMatch(addresses, actualIp)
  }

  /** A pattern that is an address literal never consults DNS. */
  lemma LiteralPatternIgnoresDns(actualIp: string, pattern: string, dns1: string -> DnsResult, dns2: string -> DnsResult)
    requires ParseAddress(Trim(pattern)).Some?
    ensures HostOrIpMatches(actualIp, pattern, dns1) == HostOrIpMatches(actualIp, pattern, dns2)
  {
  }

  /**
   * For IPv4, the textual comparison of a literal pattern is the comparison
   * of addresses: the observed address (as IPAddress.ToString writes it)
   * matches exactly when it is the address the pattern names.
   */
  lemma LiteralPatternMeansSameAddress(observed: IpAddress, pattern: string, dns: string -> DnsResult)
    requires observed.V4?
    requires ParseAddress(Trim(pattern)).Some? && ParseAddress(Trim(pattern)).value.V4?
    ensures HostOrIpMatches(AddressText(observed), pattern, dns) <==> observed == ParseAddress(Trim(pattern)).value
  {
    var pat := Trim(pattern);
    var named := ParseAddress(pat).value;
    assert !IsBlank(pattern) by {
      assert pat != [];
    }
    ParseAddressCanonical(pat, named);
    DigitsAndDotsNoLetters(AddressText(observed));
    DigitsAndDotsNoLetters(AddressText(named));
    EqualsIgnoreCaseWithoutLetters(AddressText(observed), pat);
    AddressTextInjective(observed, named);
  }

  lemma DigitsAndDotsNoLetters(s: string)
    requires DigitsAndDots(s)
    ensures forall i :: 0 <= i < |s| ==> !('a' <= s[i] <= 'z')
  {
    forall i | 0 <= i < |s| ensures !('a' <= s[i] <= 'z') {
      assert IsDigit(s[i]) || s[i] == '.';
    }
  }

  // ----- one rule against one connection -----

  /** A rule's port filter: an empty list admits every port, otherwise the port must be listed. */
  predicate PortAdmitted(ports: seq<int>, port: int) {
    |ports| == 0 || port in ports
  }

  /** The address test of a rule, by its kind. */
  predicate AddressMatches(m: AutoKnockMapping, remoteIp: string, dns: string -> DnsResult) {
    match m.kind
    case AnyIp => true
    case ExactIp => HostOrIpMatches(remoteIp, m.pattern, dns)
    case Cidr => !IsBlank(m.pattern) && IpInCidr(remoteIp, Trim(m.pattern))
  }

  /**
   * The profile a rule leads to for a connection: none when the port filter
   * or the address test fails or when no profile has the rule's profile name.
   */
  function Candidate(profiles: seq<KnockProfile>, m: AutoKnockMapping, remoteIp: string, remotePort: int,
                     dns: string -> DnsResult): Option<KnockProfile>
  {
    if !PortAdmitted(m.ports, remotePort) then None
    else if !AddressMatches(m, remoteIp, dns) then None
    else FindProfile(profiles, m.profileName)
  }

  /** Candidate as a function of the rule alone. */
  function CandidateOf(profiles: seq<KnockProfile>, remoteIp: string, remotePort: int,
                       dns: string -> DnsResult): AutoKnockMapping -> Option<KnockProfile>
  {
    (m: AutoKnockMapping) => Candidate(profiles, m, remoteIp, remotePort, dns)
  }

  /**
   * A default rule (AnyIp, no pattern, any port) admits every connection:
   * it leads to the profile with the empty name, if there is one.
   */
  lemma DefaultMappingAdmitsAll(profiles: seq<KnockProfile>, remoteIp: string, remotePort: int,
                                dns: string -> DnsResult)
    ensures PortAdmitted(DefaultMapping().ports, remotePort)
    ensures AddressMatches(DefaultMapping(), remoteIp, dns)
    ensures Candidate(profiles, DefaultMapping(), remoteIp, remotePort, dns) == FindProfile(profiles, "")
  {
  }

  /** A rule whose non-empty port list leaves out the port never fires, whatever the address. */
  lemma PortFilterSkips(profiles: seq<KnockProfile>, m: AutoKnockMapping, remoteIp: string, remotePort: int,
                        dns: string -> DnsResult)
    requires |m.ports| > 0 && remotePort !in m.ports
    ensures Candidate(profiles, m, remoteIp, remotePort, dns).None?
  {
  }

  /** A Cidr rule with a blank pattern never fires. */
  lemma BlankCidrNeverFires(profiles: seq<KnockProfile>, m: AutoKnockMapping, remoteIp: string, remotePort: int,
                            dns: string -> DnsResult)
    requires m.kind == Cidr && IsBlank(m.pattern)
    ensures Candidate(profiles, m, remoteIp, remotePort, dns).None?
  {
  }

  // ----- TryResolveProfileFor -----

  /** The order in which the kinds of rule are tried. */
  const Priority: seq<MappingType> := [ExactIp, Cidr, AnyIp]

  /** Position of a kind in Priority. */
  function Rank(k: MappingType): (r: nat)
    ensures r < |Priority| && Priority[r] == k
  {
    match k
    case ExactIp => 0
    case Cidr => 1
    case AnyIp => 2
  }

  /** The test the inner loop applies to a rule, for one kind. */
  function FiresAs(kind: MappingType, c: AutoKnockMapping -> Option<KnockProfile>): AutoKnockMapping -> bool {
    (m: AutoKnockMapping) => m.kind == kind && c(m).Some?
  }

  /** The inner loop: the first rule of the kind, in stored order, that leads to a profile. */
  function ScanKind(ms: seq<AutoKnockMapping>, kind: MappingType, c: AutoKnockMapping -> Option<KnockProfile>)
    : Option<KnockProfile>
  {
    match FirstIndex(ms, FiresAs(kind, c))
    case None => None
    case Some(i) => c(ms[i])
  }

  /** The outer loop: the kinds in order, the first one with a firing rule deciding. */
  function ResolveIn(kinds: seq<MappingType>, ms: seq<AutoKnockMapping>, c: AutoKnockMapping -> Option<KnockProfile>)
    : Option<KnockProfile>
  {
    if kinds == [] then None
    else
      match ScanKind(ms, kinds[0], c)
      case Some(p) => Some(p)
      case None => ResolveIn(kinds[1..], ms, c)
  }

  /**
   * TryResolveProfileFor: the profile for an outbound connection to
   * remoteIp:remotePort, or none.
   */
  function TryResolveProfileFor(state: AppState, remoteIp: string, remotePort: int, dns: string -> DnsResult)
    : Option<KnockProfile>
  {
    ResolveIn(Priority, state.mappings, CandidateOf(state.profiles, remoteIp, remotePort, dns))
  }

  /**
   * Rule i wins: it fires, and every firing rule is of a later kind or of
   * the same kind and stored no earlier.
   */
  predicate Wins(ms: seq<AutoKnockMapping>, c: AutoKnockMapping -> Option<KnockProfile>, i: int) {
    0 <= i < |ms| && c(ms[i]).Some? &&
    forall j :: 0 <= j < |ms| && c(ms[j]).Some? ==>
      Rank(ms[i].kind) < Rank(ms[j].kind) || (ms[i].kind == ms[j].kind && i <= j)
  }

  /** What the inner loop finds for one kind. */
  lemma ScanKindSpec(ms: seq<AutoKnockMapping>, kind: MappingType, c: AutoKnockMapping -> Option<KnockProfile>)
    ensures ScanKind(ms, kind, c).None? <==> forall j :: 0 <= j < |ms| && ms[j].kind == kind ==> c(ms[j]).None?
    ensures ScanKind(ms, kind, c).Some? ==>
      exists i :: 0 <= i < |ms| && ms[i].kind == kind && c(ms[i]) == ScanKind(ms, kind, c)
               && forall j :: 0 <= j < i && ms[j].kind == kind ==> c(ms[j]).None?
  {
    var f := FiresAs(kind, c);
    match FirstIndex(ms, f)
    case None =>
      forall j | 0 <= j < |ms| && ms[j].kind == kind ensures c(ms[j]).None? {
        assert !f(ms[j]);
      }
    case Some(i) =>
      assert f(ms[i]);
      forall j | 0 <= j < i && ms[j].kind == kind ensures c(ms[j]).None? {
        assert !f(ms[j]);
      }
  }

  /**
   * Priority resolution picks the winning rule's profile, and finds nothing
   * exactly when no rule fires.
   */
  lemma {:induction false} ResolveSpec(ms: seq<AutoKnockMapping>, c: AutoKnockMapping -> Option<KnockProfile>)
    ensures ResolveIn(Priority, ms, c).None? <==> forall j :: 0 <= j < |ms| ==> c(ms[j]).None?
    ensures ResolveIn(Priority, ms, c).Some? ==>
      exists i :: Wins(ms, c, i) && ResolveIn(Priority, ms, c) == c(ms[i])
  {
    ResolvePriorityOrder(ms, c);
    ScanKindSpec(ms, ExactIp, c);
    ScanKindSpec(ms, Cidr, c);
    ScanKindSpec(ms, AnyIp, c);
    if ScanKind(ms, ExactIp, c).Some? {
      WinnerOfKind(ms, c, ExactIp);
    } else if ScanKind(ms, Cidr, c).Some? {
      WinnerOfKind(ms, c, Cidr);
    } else if ScanKind(ms, AnyIp, c).Some? {
      WinnerOfKind(ms, c, AnyIp);
    }
  }

  /** The outer loop over the three kinds, unrolled. */
  lemma ResolvePriorityOrder(ms: seq<AutoKnockMapping>, c: AutoKnockMapping -> Option<KnockProfile>)
    ensures ResolveIn(Priority, ms, c) ==
      if ScanKind(ms, ExactIp, c).Some? then ScanKind(ms, ExactIp, c)
      else if ScanKind(ms, Cidr, c).Some? then ScanKind(ms, Cidr, c)
      else ScanKind(ms, AnyIp, c)
  {
    assert Priority[1..] == [Cidr, AnyIp] && Priority[1..][1..] == [AnyIp] && [AnyIp][1..] == [];
    assert ResolveIn([AnyIp], ms, c) == ScanKind(ms, AnyIp, c) by {
      assert ResolveIn([], ms, c) == None;
    }
  }

  /** When no rule of an earlier kind fires, the first firing rule of a kind wins. */
  lemma WinnerOfKind(ms: seq<AutoKnockMapping>, c: AutoKnockMapping -> Option<KnockProfile>, kind: MappingType)
    requires ScanKind(ms, kind, c).Some?
    requires forall j :: 0 <= j < |ms| && Rank(ms[j].kind) < Rank(kind) ==> c(ms[j]).None?
    ensures exists i :: Wins(ms, c, i) && ScanKind(ms, kind, c) == c(ms[i])
  {
    ScanKindSpec(ms, kind, c);
    var i :| 0 <= i < |ms| && ms[i].kind == kind && c(ms[i]) == ScanKind(ms, kind, c)
             && forall j :: 0 <= j < i && ms[j].kind == kind ==> c(ms[j]).None?;
    WinsFrom(ms, c, i);
  }

  /** A rule wins when it fires, no earlier rule of its kind fires and no rule of an earlier kind fires. */
  lemma WinsFrom(ms: seq<AutoKnockMapping>, c: AutoKnockMapping -> Option<KnockProfile>, i: nat)
    requires i < |ms| && c(ms[i]).Some?
    requires forall j :: 0 <= j < i && ms[j].kind == ms[i].kind ==> c(ms[j]).None?
    requires forall j :: 0 <= j < |ms| && Rank(ms[j].kind) < Rank(ms[i].kind) ==> c(ms[j]).None?
    ensures Wins(ms, c, i)
  {
  }

  /**
   * TryResolveProfileFor returns the profile named by the winning rule: the
   * first rule, in stored order, of the first kind among ExactIp, Cidr and
   * AnyIp that has one whose port filter admits the port, whose address test
   * passes and whose profile exists. It returns none exactly when no rule
   * passes all three.
   */
  lemma TryResolveProfileForSpec(state: AppState, remoteIp: string, remotePort: int, dns: string -> DnsResult)
    ensures var c := CandidateOf(state.profiles, remoteIp, remotePort, dns);
      && (TryResolveProfileFor(state, remoteIp, remotePort, dns).None? <==>
            forall j :: 0 <= j < |state.mappings| ==> c(state.mappings[j]).None?)
      && (TryResolveProfileFor(state, remoteIp, remotePort, dns).Some? ==>
            exists i :: Wins(state.mappings, c, i) && TryResolveProfileFor(state, remoteIp, remotePort, dns) == c(state.mappings[i]))
  {
    ResolveSpec(state.mappings, CandidateOf(state.profiles, remoteIp, remotePort, dns));
  }

  /** The profile a rule leads to, when it fires. */
  lemma CandidateMeaning(profiles: seq<KnockProfile>, m: AutoKnockMapping, remoteIp: string, remotePort: int,
                         dns: string -> DnsResult)
    ensures CandidateOf(profiles, remoteIp, remotePort, dns)(m).Some? <==>
      PortAdmitted(m.ports, remotePort) && AddressMatches(m, remoteIp, dns) && FindProfile(profiles, m.profileName).Some?
    ensures CandidateOf(profiles, remoteIp, remotePort, dns)(m).Some? ==>
      CandidateOf(profiles, remoteIp, remotePort, dns)(m) == FindProfile(profiles, m.profileName)
  {
  }

  /** A firing ExactIp rule beats every Cidr and AnyIp rule, wherever they are stored. */
  lemma ExactIpFirst(state: AppState, remoteIp: string, remotePort: int, dns: string -> DnsResult, e: nat)
    requires e < |state.mappings| && state.mappings[e].kind == ExactIp
    requires CandidateOf(state.profiles, remoteIp, remotePort, dns)(state.mappings[e]).Some?
    ensures TryResolveProfileFor(state, remoteIp, remotePort, dns).Some?
    ensures exists i :: (0 <= i <= e && state.mappings[i].kind == ExactIp &&
      TryResolveProfileFor(state, remoteIp, remotePort, dns) == CandidateOf(state.profiles, remoteIp, remotePort, dns)(state.mappings[i]))
  {
    var c := CandidateOf(state.profiles, remoteIp, remotePort, dns);
    TryResolveProfileForSpec(state, remoteIp, remotePort, dns);
    var i :| Wins(state.mappings, c, i) && TryResolveProfileFor(state, remoteIp, remotePort, dns) == c(state.mappings[i]);
    assert Rank(state.mappings[i].kind) <= Rank(state.mappings[e].kind);
  }

  // ----- Monitor_NewOutboundConnection -----

  /**
   * What the handler of a new outbound connection knocks: the steps of the
   * resolved profile aimed at the observed address; failing that, the steps
   * currently in the editor, unless there are none. The profile built for
   * the knock has no name.
   */
  function AutoKnockTarget(state: AppState, remoteIp: string, remotePort: int, dns: string -> DnsResult,
                           editorSteps: seq<KnockStep>): (r: Option<KnockProfile>)
    ensures r.Some? ==> r.value.name == "" && r.value.ipAddress == remoteIp
    ensures r.None? <==> TryResolveProfileFor(state, remoteIp, remotePort, dns).None? && editorSteps == []
    ensures TryResolveProfileFor(state, remoteIp, remotePort, dns).Some? ==>
      r.value.steps == TryResolveProfileFor(state, remoteIp, remotePort, dns).value.steps
    ensures TryResolveProfileFor(state, remoteIp, remotePort, dns).None? && r.Some? ==> r.value.steps == editorSteps
  {
    match TryResolveProfileFor(state, remoteIp, remotePort, dns)
    case Some(matched) => Some(KnockProfile("", remoteIp, matched.steps))
    case None => if |editorSteps| == 0 then None else Some(KnockProfile("", remoteIp, editorSteps))
  }

  // ----- port lists typed into text boxes -----

  /** The separators of a port list: comma, semicolon, space and tab. */
  const PortSeparators: set<char> := {',', ';', ' ', '\t'}

  predicate IsPort(p: int) {
    0 < p <= 65535
  }

  /** The parts that parse as integers (after trimming) and lie in 1..65535, in order. */
  function ValidPorts(parts: seq<string>): (r: seq<int>)
    ensures forall k :: 0 <= k < |r| ==> IsPort(r[k])
  {
    if parts == [] then []
    else
      var rest := ValidPorts(parts[1..]);
      match PortOf(parts[0])
      case Some(p) => [p] + rest
      case None => rest
  }

  /** A port is kept exactly when some part parses to it. */
  lemma {:induction false} ValidPortsMembers(parts: seq<string>, p: int)
    ensures p in ValidPorts(parts) <==> exists i :: 0 <= i < |parts| && PartIsPort(parts[i], p)
  {
    if parts != [] {
      var rest := parts[1..];
      ValidPortsMembers(rest, p);
      assert p in ValidPorts(parts) <==> PartIsPort(parts[0], p) || p in ValidPorts(rest);
      if exists i :: 0 <= i < |rest| && PartIsPort(rest[i], p) {
        var i :| 0 <= i < |rest| && PartIsPort(rest[i], p);
        assert parts[i + 1] == rest[i];
      }
      if exists i :: 0 <= i < |parts| && PartIsPort(parts[i], p) {
        var i :| 0 <= i < |parts| && PartIsPort(parts[i], p);
        if i > 0 {
          assert rest[i - 1] == parts[i];
        }
      }
    }
  }

  /** A part of a port list that reads as the port p. */
  predicate PartIsPort(part: string, p: int) {
    PortOf(part) == Some(p)
  }

  /** One part of a port list: trimmed, read by int.TryParse, kept when in 1..65535. */
  function PortOf(part: string): (r: Option<int>)
    ensures r.Some? <==> TryParseInt(Trim(part)).Some? && IsPort(TryParseInt(Trim(part)).value)
    ensures r.Some? ==> r.value == TryParseInt(Trim(part)).value
  {
    match TryParseInt(Trim(part))
    case Some(p) => if IsPort(p) then Some(p) else None
    case None => None
  }

  /** The text of a port is read back as that port. */
  lemma PortOfText(p: int)
    requires IsPort(p)
    ensures PortOf(IntText(p)) == Some(p)
  {
    TrimOfTrimmed(IntText(p));
    TryParseIntText(p);
  }

  /**
   * The ports listed in a text box: split on the separators, trimmed, kept
   * when they parse and lie in 1..65535.
   */
  function PortsFromText(text: string): seq<int> {
    ValidPorts(Split(text, PortSeparators))
  }

  /** A rule's ports as the mapping list shows them, comma-separated. */
  function PortsText(ports: seq<int>): string
    requires ports != []
  {
    Join(PortTexts(ports), ',')
  }

  function PortTexts(ports: seq<int>): (r: seq<string>)
    ensures |r| == |ports|
    ensures forall i :: 0 <= i < |ports| ==> r[i] == IntText(ports[i])
  {
    if ports == [] then [] else [IntText(ports[0])] + PortTexts(ports[1..])
  }

  /** Valid ports shown as a comma-separated list are read back as the same list. */
  lemma PortsTextRoundTrip(ports: seq<int>)
    requires ports != [] && forall k :: 0 <= k < |ports| ==> IsPort(ports[k])
    ensures PortsFromText(PortsText(ports)) == ports
  {
    var texts := PortTexts(ports);
    forall i | 0 <= i < |texts| ensures Excludes(texts[i], PortSeparators) {
      assert AllDigits(IntText(ports[i]));
    }
    SplitJoin(texts, ',', PortSeparators);
    ValidPortsOfTexts(ports);
  }

  lemma {:induction false} ValidPortsOfTexts(ports: seq<int>)
    requires forall k :: 0 <= k < |ports| ==> IsPort(ports[k])
    ensures ValidPorts(PortTexts(ports)) == ports
  {
    if ports != [] {
      var t := IntText(ports[0]);
      assert PortTexts(ports)[1..] == PortTexts(ports[1..]);
      ValidPortsOfTexts(ports[1..]);
      PortOfText(ports[0]);
    }
  }

  // ----- the four knock-step rows of the editor -----

  /** What the editor holds for one step: the port text and whether UDP is selected. */
  datatype StepRow = StepRow(portText: string, udp: bool)

  /** ParseIntSafe: the parsed integer, or the fallback when the text does not parse. */
  function ParseIntSafe(s: string, fallback: int): (r: int)
    ensures TryParseInt(s).Some? ==> r == TryParseInt(s).value
    ensures TryParseInt(s).None? ==> r == fallback
  {
    match TryParseInt(s)
    case Some(v) => v
    case None => fallback
  }

  /** StepFromUI: the port (0 when the text does not parse) and the protocol. */
  function StepFromRow(row: StepRow): (s: KnockStep)
    ensures s.protocol == (if row.udp then UDP else TCP)
  {
    KnockStep(ParseIntSafe(row.portText, 0), if row.udp then UDP else TCP)
  }

  /**
   * The steps CurrentFromUI reads (its Where(s => s.Port > 0)): the step of
   * every row with a positive port, in row order, and no others.
   */
  function StepsFromRows(rows: seq<StepRow>): (r: seq<KnockStep>)
    ensures |r| <= |rows|
    ensures forall k :: 0 <= k < |r| ==> r[k].port > 0
    ensures exists idx :: KeptBy(rows, StepFromRow, r, idx)
  {
    KeepPositiveFilter(rows, StepFromRow);
    assert KeptBy(rows, StepFromRow, KeepPositive(rows, StepFromRow), KeptIndices(rows, StepFromRow));
    KeepPositive(rows, StepFromRow)
  }

  /** The items' steps with a positive port, in order. */
  function KeepPositive<R>(items: seq<R>, f: R -> KnockStep): (r: seq<KnockStep>)
    ensures |r| <= |items|
    ensures forall k :: 0 <= k < |r| ==> r[k].port > 0
  {
    if items == [] then []
    else if f(items[0]).port > 0 then [f(items[0])] + KeepPositive(items[1..], f)
    else KeepPositive(items[1..], f)
  }

  /**
   * idx lists, in increasing order, exactly the items whose step has a
   * positive port, and r holds those items' steps in that order.
   */
  predicate KeptBy<R>(items: seq<R>, f: R -> KnockStep, r: seq<KnockStep>, idx: seq<nat>) {
    && |idx| == |r|
    && (forall k :: 0 <= k < |idx| ==> idx[k] < |items| && r[k] == f(items[idx[k]]))
    && (forall k, l :: 0 <= k < l < |idx| ==> idx[k] < idx[l])
    && (forall i :: 0 <= i < |items| && f(items[i]).port > 0 ==> i in idx)
  }

  /** The indices of the items KeepPositive keeps, in order. */
  ghost function KeptIndices<R>(items: seq<R>, f: R -> KnockStep): seq<nat> {
    if items == [] then []
    else if f(items[0]).port > 0 then [0] + Shift(KeptIndices(items[1..], f))
    else Shift(KeptIndices(items[1..], f))
  }

  lemma {:induction false} KeepPositiveFilter<R>(items: seq<R>, f: R -> KnockStep)
    ensures KeptBy(items, f, KeepPositive(items, f), KeptIndices(items, f))
  {
    if items != [] {
      var tail := items[1..];
      KeepPositiveFilter(tail, f);
      if f(items[0]).port > 0 {
        KeptHead(items, f, KeepPositive(tail, f), KeptIndices(tail, f));
      } else {
        KeptSkip(items, f, KeepPositive(tail, f), KeptIndices(tail, f));
      }
    }
  }

  lemma KeptHead<R>(items: seq<R>, f: R -> KnockStep, r: seq<KnockStep>, idx: seq<nat>)
    requires items != [] && KeptBy(items[1..], f, r, idx) && f(items[0]).port > 0
    ensures KeptBy(items, f, [f(items[0])] + r, [0] + Shift(idx))
  {
    KeptShifted(items, f, r, idx);
    KeptHeadSteps(items, f, r, idx);
    KeptHeadOrder(idx);
    KeptHeadCovers(items, f, r, idx);
  }

  /** With the head in front, each listed index still names its step. */
  lemma KeptHeadSteps<R>(items: seq<R>, f: R -> KnockStep, r: seq<KnockStep>, idx: seq<nat>)
    requires items != [] && |idx| == |r|
    requires forall k :: 0 <= k < |idx| ==> Shift(idx)[k] < |items| && r[k] == f(items[Shift(idx)[k]])
    ensures var all, kept := [0] + Shift(idx), [f(items[0])] + r;
      forall k :: 0 <= k < |all| ==> all[k] < |items| && kept[k] == f(items[all[k]])
  {
    var all, kept := [0] + Shift(idx), [f(items[0])] + r;
    forall k | 0 <= k < |all| ensures all[k] < |items| && kept[k] == f(items[all[k]]) {
      if k > 0 {
        assert all[k] == Shift(idx)[k - 1] && kept[k] == r[k - 1];
      }
    }
  }

  /** Index 0 in front of increasing shifted indices keeps them increasing. */
  lemma KeptHeadOrder(idx: seq<nat>)
    requires forall k, l :: 0 <= k < l < |idx| ==> idx[k] < idx[l]
    ensures var all := [0] + Shift(idx); forall k, l :: 0 <= k < l < |all| ==> all[k] < all[l]
  {
    var all := [0] + Shift(idx);
    forall k, l | 0 <= k < l < |all| ensures all[k] < all[l] {
      assert all[l] == idx[l - 1] + 1;
      if k > 0 {
        assert all[k] == idx[k - 1] + 1;
      }
    }
  }

  /** The head, kept, and every later kept item are listed. */
  lemma KeptHeadCovers<R>(items: seq<R>, f: R -> KnockStep, r: seq<KnockStep>, idx: seq<nat>)
    requires items != [] && f(items[0]).port > 0
    requires forall i :: 1 <= i < |items| && f(items[i]).port > 0 ==> i in Shift(idx)
    ensures forall i :: 0 <= i < |items| && f(items[i]).port > 0 ==> i in [0] + Shift(idx)
  {
    var all := [0] + Shift(idx);
    forall i | 0 <= i < |items| && f(items[i]).port > 0 ensures i in all {
      if i > 0 {
        assert i in Shift(idx);
        var k :| 0 <= k < |Shift(idx)| && Shift(idx)[k] == i;
        assert all[k + 1] == i;
      }
    }
  }

  lemma KeptSkip<R>(items: seq<R>, f: R -> KnockStep, r: seq<KnockStep>, idx: seq<nat>)
    requires items != [] && KeptBy(items[1..], f, r, idx) && f(items[0]).port <= 0
    ensures KeptBy(items, f, r, Shift(idx))
  {
    KeptShifted(items, f, r, idx);
  }

  /** Every index moved one item on. */
  function Shift(idx: seq<nat>): (r: seq<nat>)
    ensures |r| == |idx| && forall k :: 0 <= k < |idx| ==> r[k] == idx[k] + 1
  {
    seq(|idx|, k requires 0 <= k < |idx| => idx[k] + 1)
  }

  /** The items kept from the tail are kept from the whole, one index further on. */
  lemma KeptShifted<R>(items: seq<R>, f: R -> KnockStep, r: seq<KnockStep>, idx: seq<nat>)
    requires items != [] && KeptBy(items[1..], f, r, idx)
    ensures forall k :: 0 <= k < |idx| ==> Shift(idx)[k] < |items| && r[k] == f(items[Shift(idx)[k]])
    ensures forall i :: 1 <= i < |items| && f(items[i]).port > 0 ==> i in Shift(idx)
  {
    var tail := items[1..];
    var sh := Shift(idx);
    forall k | 0 <= k < |idx| ensures sh[k] < |items| && r[k] == f(items[sh[k]]) {
      assert items[sh[k]] == tail[idx[k]];
    }
    forall i | 1 <= i < |items| && f(items[i]).port > 0 ensures i in sh {
      assert items[i] == tail[i - 1];
      var k :| 0 <= k < |idx| && idx[k] == i - 1;
      assert sh[k] == i;
    }
  }

  /** The editor's step rows filled from a profile: its first four steps, padded with default steps. */
  function PadSteps(steps: seq<KnockStep>): (r: seq<KnockStep>)
    ensures |r| == 4
    ensures forall i :: 0 <= i < 4 ==> r[i] == if i < |steps| then steps[i] else DefaultStep()
  {
    (steps + [DefaultStep(), DefaultStep(), DefaultStep(), DefaultStep()])[..4]
  }

  /** SetStep: a positive port is written out, any other is shown as an empty box. */
  function RowOfStep(s: KnockStep): StepRow {
    StepRow(if s.port > 0 then IntText(s.port) else "", s.protocol == UDP)
  }

  /** PopulateUI: the four rows shown for a profile. */
  function RowsOfProfile(p: KnockProfile): (rows: seq<StepRow>)
    ensures |rows| == 4
  {
    var padded := PadSteps(p.steps);
    [RowOfStep(padded[0]), RowOfStep(padded[1]), RowOfStep(padded[2]), RowOfStep(padded[3])]
  }

  /** A row written from a step with a port in the 32-bit range is read back as that step. */
  lemma StepRowRoundTrip(s: KnockStep)
    requires 0 < s.port <= Int32Max
    ensures StepFromRow(RowOfStep(s)) == s
  {
    TryParseIntText(s.port);
  }

  /** An empty row, as written for a placeholder step, is read back as no step. */
  lemma PlaceholderRowDropped(s: KnockStep)
    requires s.port <= 0
    ensures StepFromRow(RowOfStep(s)).port == 0
  {
  }

  /**
   * Showing a profile and reading the editor back gives its steps, when it
   * has at most four and every port is positive and within 32 bits; a fifth
   * step onwards does not survive the editor.
   */
  lemma EditorRoundTrip(p: KnockProfile)
    requires |p.steps| <= 4 && forall k :: 0 <= k < |p.steps| ==> 0 < p.steps[k].port <= Int32Max
    ensures StepsFromRows(RowsOfProfile(p)) == p.steps
  {
    var rows := RowsOfProfile(p);
    forall i | 0 <= i < 4
      ensures i < |p.steps| ==> StepFromRow(rows[i]) == p.steps[i]
      ensures i >= |p.steps| ==> StepFromRow(rows[i]).port == 0
    {
      RowReadBack(p, i);
    }
    StepsFromRowsSplit(rows, |p.steps|, p.steps);
  }

  /** Row i of a profile reads back as its step i, or as no step past its last one. */
  lemma RowReadBack(p: KnockProfile, i: nat)
    requires i < 4 && |p.steps| <= 4 && forall k :: 0 <= k < |p.steps| ==> 0 < p.steps[k].port <= Int32Max
    ensures i < |p.steps| ==> StepFromRow(RowsOfProfile(p)[i]) == p.steps[i]
    ensures i >= |p.steps| ==> StepFromRow(RowsOfProfile(p)[i]).port == 0
  {
    var padded := PadSteps(p.steps);
    assert RowsOfProfile(p)[i] == RowOfStep(padded[i]);
    if i < |p.steps| {
      StepRowRoundTrip(p.steps[i]);
    } else {
      PlaceholderRowDropped(padded[i]);
    }
  }

  lemma {:induction false} StepsFromRowsSplit(rows: seq<StepRow>, n: nat, steps: seq<KnockStep>)
    requires n == |steps| <= |rows|
    requires forall i :: 0 <= i < n ==> StepFromRow(rows[i]) == steps[i] && steps[i].port > 0
    requires forall i :: n <= i < |rows| ==> StepFromRow(rows[i]).port == 0
    ensures StepsFromRows(rows) == steps
  {
    if rows != [] {
      if n == 0 {
        StepsFromRowsSplit(rows[1..], 0, []);
      } else {
        StepsFromRowsSplit(rows[1..], n - 1, steps[1..]);
        assert [steps[0]] + steps[1..] == steps;
      }
    }
  }
}
