/**
 * The knock itself: check the arguments, settle on one destination address
 * (a literal address as it is, otherwise the first IPv4 address the name
 * resolves to, otherwise its first address), then walk the steps in order,
 * hitting each port with an empty UDP datagram or a TCP connection attempt
 * raced against a timeout, pausing between steps, and logging as it goes.
 *
 * The network, name resolution and the cancellation token are outside the
 * model: they are parameters. `net(i)` is how the attempt of step i ends,
 * `dns(host)` what resolving `host` gives, and `cancelled(c)` whether
 * cancellation has been requested by the time the walk reaches checkpoint c.
 */
module Knocker {

  import opened Wrappers
  import opened Text
  import opened Lists
  import opened Net
  import opened Models

  /**
   * How the attempt of one step ends. For TCP, ConnectFirst means the
   * connect task finished before the timeout (whether it connected or was
   * refused) and TimeoutFirst that the timeout won the race. A UDP send has
   * no race: both mean the datagram went out. Threw carries the message of
   * an exception raised by the attempt.
   */
  datatype SendOutcome = ConnectFirst | TimeoutFirst | Threw(message: string)

  /** The places where the walk looks at the cancellation token. */
  datatype Checkpoint = BeforeStep(i: nat) | DuringDelay(i: nat)

  /** What a knock does, in order: attempts on ports, log lines and pauses. */
  datatype Action =
    | Attempt(protocol: KnockProtocol, address: IpAddress, port: int)
    | Log(line: string)
    | Pause(ms: int)

  /**
   * How KnockAsync ends: an ArgumentException (parameter name and message),
   * an exception while resolving the host name, an OperationCanceledException
   * out of the pause between steps (after the actions so far), or normal
   * completion with the actions it took.
   */
  datatype KnockResult =
    | ArgumentError(param: string, message: string)
    | ResolveError(message: string)
    | Cancelled(trace: seq<Action>)
    | Completed(trace: seq<Action>)

  /** Where the destination address came from, or why there is none. */
  datatype Target = Address(ip: IpAddress) | Unresolved(message: string)

  /** Where the step walk stands: still going, left by `break`, or thrown out of. */
  datatype Walked = Going(trace: seq<Action>) | Broke(trace: seq<Action>) | Aborted(trace: seq<Action>)

  const CompletedLine: string := "Knock sequence completed."

  predicate InterNetwork(a: IpAddress) { a.V4? }

  /** The entry KnockAsync picks from a non-empty DNS answer. */
  function PreferredAddress(entries: seq<IpAddress>): IpAddress
    requires |entries| > 0
  {
    match FirstIndex(entries, InterNetwork)
    case Some(k) => entries[k]
    case None => entries[0]
  }

  /**
   * The chosen entry is the first IPv4 entry when there is one, and the
   * first entry otherwise.
   */
  lemma PreferredAddressMeaning(entries: seq<IpAddress>)
    requires |entries| > 0
    ensures PreferredAddress(entries) in entries
    ensures PreferredAddress(entries).V4? <==> exists k :: 0 <= k < |entries| && entries[k].V4?
    ensures forall k :: 0 <= k < |entries| && entries[k].V4? ==>
      exists j :: 0 <= j <= k && entries[j] == PreferredAddress(entries) && forall m :: 0 <= m < j ==> !entries[m].V4?
    ensures (forall k :: 0 <= k < |entries| ==> !entries[k].V4?) ==> PreferredAddress(entries) == entries[0]
  {
    var r := FirstIndex(entries, InterNetwork);
    if r.Some? {
      assert InterNetwork(entries[r.value]);
      forall k | 0 <= k < |entries| && entries[k].V4?
        ensures exists j :: 0 <= j <= k && entries[j] == PreferredAddress(entries) && forall m :: 0 <= m < j ==> !entries[m].V4?
      {
        assert forall m :: 0 <= m < r.value ==> !InterNetwork(entries[m]);
      }
    } else {
      assert forall k :: 0 <= k < |entries| ==> !InterNetwork(entries[k]);
    }
  }

  /** The foreach over the DNS answer: the first IPv4 entry, or else entry 0. */
  method ChooseAddress(entries: seq<IpAddress>) returns (ip: IpAddress)
    requires |entries| > 0
    ensures ip == PreferredAddress(entries)
  {
    var chosen: Option<IpAddress> := None;
    var i := 0;
    while i < |entries|
      invariant 0 <= i <= |entries|
      invariant chosen.None? ==> forall k :: 0 <= k < i ==> !InterNetwork(entries[k])
      invariant chosen.Some? ==> 1 <= i && FirstIndex(entries, InterNetwork) == Some(i - 1) && chosen == Some(entries[i - 1])
    {
      if entries[i].V4? {
        chosen := Some(entries[i]);
        assert InterNetwork(entries[i]);
        i := i + 1;
        break;
      }
      i := i + 1;
    }
    if chosen.Some? {
      ip := chosen.value;
    } else {
      ip := entries[0];
    }
  }

  /**
   * The destination for the text `ip`: its trimmed text when that is an
   * address; otherwise the host name is resolved, and a failure or an empty
   * answer is an error.
   */
  function ResolveTarget(ip: string, dns: string -> DnsResult): Target {
    var host := Trim(ip);
    match ParseAddress(host)
    case Some(a) => Address(a)
    case None =>
      match dns(host)
      case DnsFailure(message) => Unresolved(message)
      case Resolved(entries) =>
        if |entries| == 0 then Unresolved("Could not resolve host '" + host + "'.")
        else Address(PreferredAddress(entries))
  }

  function ProtocolName(p: KnockProtocol): string {
    match p
    case TCP => "TCP"
    case UDP => "UDP"
  }

  /** IPEndPoint's text: `a.b.c.d:port`, or `[v6]:port`. */
  function EndpointText(address: IpAddress, port: int): string {
    match address
    case V4(_, _, _, _) => AddressText(address) + ":" + IntText(port)
    case V6(text) => "[" + text + "]:" + IntText(port)
  }

  /** The log line of one attempt. */
  function StepLine(address: IpAddress, step: KnockStep, outcome: SendOutcome): string {
    match outcome
    case Threw(message) => "Step " + ProtocolName(step.protocol) + ":" + IntText(step.port) + " -> " + message
    case ConnectFirst =>
      if step.protocol == UDP then "UDP -> " + EndpointText(address, step.port)
      else "TCP CONNECTED -> " + AddressText(address) + ":" + IntText(step.port)
    case TimeoutFirst =>
      if step.protocol == UDP then "UDP -> " + EndpointText(address, step.port)
      else "TCP SYN sent (timeout) -> " + AddressText(address) + ":" + IntText(step.port)
  }

  /** The state of the walk after the first n steps. */
  function Walk(address: IpAddress, steps: seq<KnockStep>, n: nat, delayMs: int,
                net: nat -> SendOutcome, cancelled: Checkpoint -> bool): Walked
    requires n <= |steps|
  {
    if n == 0 then Going([])
    else
      var w := Walk(address, steps, n - 1, delayMs, net, cancelled);
      var i := n - 1;
      if !w.Going? then w
      else if cancelled(BeforeStep(i)) then Broke(w.trace)
      else if steps[i].port <= 0 then w
      else
        var t := w.trace + [Attempt(steps[i].protocol, address, steps[i].port), Log(StepLine(address, steps[i], net(i)))];
        if delayMs <= 0 then Going(t)
        else if cancelled(DuringDelay(i)) then Aborted(t)
        else Going(t + [Pause(delayMs)])
  }

  /** What KnockAsync does with a pause of `delayMs` between steps. */
  function Knock(ip: string, steps: seq<KnockStep>, delayMs: int, dns: string -> DnsResult,
                 net: nat -> SendOutcome, cancelled: Checkpoint -> bool): KnockResult
  {
    if IsBlank(ip) then ArgumentError("ip", "IP is required")
    else if |steps| == 0 then ArgumentError("steps", "At least one step is required")
    else
      match ResolveTarget(ip, dns)
      case Unresolved(message) => ResolveError(message)
      case Address(address) =>
        match Walk(address, steps, |steps|, delayMs, net, cancelled)
        case Aborted(trace) => Cancelled(trace)
        case Going(trace) => Completed(trace + [Log(CompletedLine)])
        case Broke(trace) => Completed(trace + [Log(CompletedLine)])
  }

  /** Once the walk has stopped, later steps change nothing. */
  lemma {:induction false} WalkStopped(address: IpAddress, steps: seq<KnockStep>, n: nat, m: nat, delayMs: int,
                                       net: nat -> SendOutcome, cancelled: Checkpoint -> bool)
    requires n <= m <= |steps|
    requires !Walk(address, steps, n, delayMs, net, cancelled).Going?
    ensures Walk(address, steps, m, delayMs, net, cancelled) == Walk(address, steps, n, delayMs, net, cancelled)
  {
    if m > n {
      WalkStopped(address, steps, n, m - 1, delayMs, net, cancelled);
    }
  }

  class PortKnockerService {
    var stepDelayMs: int
    var tcpTimeoutMs: int

    /** A new service pauses 200 ms between steps and gives TCP 400 ms. */
    constructor()
      ensures stepDelayMs == 200 && tcpTimeoutMs == 400
    {
      stepDelayMs := 200;
      tcpTimeoutMs := 400;
    }

    /** KnockAsync: changes nothing in the service and behaves as Knock says. */
    method KnockAsync(ip: string, steps: seq<KnockStep>, dns: string -> DnsResult,
                      net: nat -> SendOutcome, cancelled: Checkpoint -> bool) returns (r: KnockResult)
      ensures r == Knock(ip, steps, stepDelayMs, dns, net, cancelled)
    {
      if IsBlank(ip) {
        return ArgumentError("ip", "IP is required");
      }
      if |steps| == 0 {
        return ArgumentError("steps", "At least one step is required");
      }
      var target := ResolveHost(ip, dns);
      if target.Unresolved? {
        return ResolveError(target.message);
      }
      var walked := WalkSteps(target.ip, steps, net, cancelled);
      if walked.Aborted? {
        r := Cancelled(walked.trace);
      } else {
        r := Completed(walked.trace + [Log(CompletedLine)]);
      }
    }

    /**
     * The foreach over the steps: stops at a requested cancellation, skips
     * placeholder ports, attempts and logs each other step and pauses after it.
     */
    method WalkSteps(address: IpAddress, steps: seq<KnockStep>, net: nat -> SendOutcome,
                     cancelled: Checkpoint -> bool) returns (w: Walked)
      ensures w == Walk(address, steps, |steps|, stepDelayMs, net, cancelled)
    {
      var delay := stepDelayMs;
      var trace: seq<Action> := [];
      var i := 0;
      while i < |steps|
        invariant 0 <= i <= |steps|
        invariant Walk(address, steps, i, delay, net, cancelled) == Going(trace)
      {
        if cancelled(BeforeStep(i)) {
          WalkBreaks(address, steps, i, delay, net, cancelled);
          WalkStopped(address, steps, i + 1, |steps|, delay, net, cancelled);
          return Broke(trace);
        }
        var step := steps[i];
        if step.port <= 0 {
          WalkSkips(address, steps, i, delay, net, cancelled);
          i := i + 1;
          continue;
        }
        WalkAttempts(address, steps, i, delay, net, cancelled);
        trace := trace + [Attempt(step.protocol, address, step.port), Log(StepLine(address, step, net(i)))];
        if delay > 0 {
          if cancelled(DuringDelay(i)) {
            WalkStopped(address, steps, i + 1, |steps|, delay, net, cancelled);
            return Aborted(trace);
          }
          trace := trace + [Pause(delay)];
        }
        i := i + 1;
      }
      w := Going(trace);
    }
  }

  /** Resolution as KnockAsync does it, with the foreach that picks an entry. */
  method ResolveHost(ip: string, dns: string -> DnsResult) returns (t: Target)
    ensures t == ResolveTarget(ip, dns)
  {
    var host := Trim(ip);
    var literal := ParseAddress(host);
    if literal.Some? {
      return Address(literal.value);
    }
    var answer := dns(host);
    if answer.DnsFailure? {
      return Unresolved(answer.message);
    }
    if |answer.addresses| == 0 {
      return Unresolved("Could not resolve host '" + host + "'.");
    }
    var chosen := ChooseAddress(answer.addresses);
    t := Address(chosen);
  }

  /** Cancellation seen before step i makes the walk leave with what it has. */
  lemma WalkBreaks(address: IpAddress, steps: seq<KnockStep>, i: nat, delayMs: int,
                   net: nat -> SendOutcome, cancelled: Checkpoint -> bool)
    requires i < |steps| && Walk(address, steps, i, delayMs, net, cancelled).Going? && cancelled(BeforeStep(i))
    ensures Walk(address, steps, i + 1, delayMs, net, cancelled) == Broke(Walk(address, steps, i, delayMs, net, cancelled).trace)
  {
  }

  /** A placeholder step adds nothing, not even a pause. */
  lemma WalkSkips(address: IpAddress, steps: seq<KnockStep>, i: nat, delayMs: int,
                  net: nat -> SendOutcome, cancelled: Checkpoint -> bool)
    requires i < |steps| && Walk(address, steps, i, delayMs, net, cancelled).Going?
    requires !cancelled(BeforeStep(i)) && steps[i].port <= 0
    ensures Walk(address, steps, i + 1, delayMs, net, cancelled) == Walk(address, steps, i, delayMs, net, cancelled)
  {
  }

  /** A real step adds its attempt and log line, then the pause, which cancellation can cut short. */
  lemma WalkAttempts(address: IpAddress, steps: seq<KnockStep>, i: nat, delayMs: int,
                     net: nat -> SendOutcome, cancelled: Checkpoint -> bool)
    requires i < |steps| && Walk(address, steps, i, delayMs, net, cancelled).Going?
    requires !cancelled(BeforeStep(i)) && steps[i].port > 0
    ensures var t := Walk(address, steps, i, delayMs, net, cancelled).trace
                     + [Attempt(steps[i].protocol, address, steps[i].port), Log(StepLine(address, steps[i], net(i)))];
            Walk(address, steps, i + 1, delayMs, net, cancelled) ==
              if delayMs <= 0 then Going(t)
              else if cancelled(DuringDelay(i)) then Aborted(t)
              else Going(t + [Pause(delayMs)])
  {
  }

  /** The steps a trace attempts, in order, as (port, protocol) steps. */
  function Attempts(trace: seq<Action>): seq<KnockStep> {
    if trace == [] then []
    else
      var last := trace[|trace| - 1];
      Attempts(trace[..|trace| - 1]) + if last.Attempt? then [KnockStep(last.port, last.protocol)] else []
  }

  /** The steps of a list that are not placeholders (port above 0), in order. */
  function SentSteps(steps: seq<KnockStep>): seq<KnockStep> {
    if steps == [] then []
    else
      var last := steps[|steps| - 1];
      SentSteps(steps[..|steps| - 1]) + if last.port > 0 then [last] else []
  }

  lemma {:induction false} AttemptsAppend(a: seq<Action>, b: seq<Action>)
    ensures Attempts(a + b) == Attempts(a) + Attempts(b)
  {
    if b != [] {
      var n := |b| - 1;
      assert (a + b)[..|a + b| - 1] == a + b[..n];
      AttemptsAppend(a, b[..n]);
    } else {
      assert a + b == a;
    }
  }

  /** A step's log line starts with "Step", "UDP" or "TCP", so it is never the completion line. */
  lemma StepLineNotCompletion(address: IpAddress, step: KnockStep, outcome: SendOutcome)
    ensures StepLine(address, step, outcome) != CompletedLine
  {
    var line := StepLine(address, step, outcome);
    assert line[0] != CompletedLine[0];
  }

  /**
   * Whatever the network and the cancellation token do, the walk attempts
   * only real ports and only the chosen address, never logs the completion
   * line, and is thrown out of only from a pause, so only when pauses are on.
   */
  lemma {:induction false} WalkShape(address: IpAddress, steps: seq<KnockStep>, n: nat, delayMs: int,
                                     net: nat -> SendOutcome, cancelled: Checkpoint -> bool)
    requires n <= |steps|
    ensures var t := Walk(address, steps, n, delayMs, net, cancelled).trace;
            Log(CompletedLine) !in t
            && forall k :: 0 <= k < |t| && t[k].Attempt? ==> t[k].address == address && t[k].port > 0
    ensures Walk(address, steps, n, delayMs, net, cancelled).Aborted? ==> delayMs > 0
  {
    if n > 0 {
      var i := n - 1;
      WalkShape(address, steps, i, delayMs, net, cancelled);
      if Walk(address, steps, i, delayMs, net, cancelled).Going? {
        if cancelled(BeforeStep(i)) {
          WalkBreaks(address, steps, i, delayMs, net, cancelled);
        } else if steps[i].port <= 0 {
          WalkSkips(address, steps, i, delayMs, net, cancelled);
        } else {
          WalkAttempts(address, steps, i, delayMs, net, cancelled);
          StepLineNotCompletion(address, steps[i], net(i));
        }
      } else {
        WalkStopped(address, steps, i, n, delayMs, net, cancelled);
      }
    }
  }

  /** The attempts of the actions one step adds. */
  lemma AttemptsOfStep(step: KnockStep, address: IpAddress, line: string, tail: seq<Action>)
    requires tail == [] || (|tail| == 1 && tail[0].Pause?)
    ensures Attempts([Attempt(step.protocol, address, step.port), Log(line)] + tail) == [step]
  {
    var block := [Attempt(step.protocol, address, step.port), Log(line)];
    var first := [Attempt(step.protocol, address, step.port)];
    assert first[..0] == [];
    assert Attempts(first) == [KnockStep(step.port, step.protocol)];
    assert block[..|block| - 1] == first;
    assert Attempts(block) == [step];
    if tail != [] {
      assert (block + tail)[..2] == block && !(block + tail)[2].Attempt?;
    } else {
      assert block + tail == block;
    }
  }

  lemma SentStepsSnoc(steps: seq<KnockStep>, n: nat)
    requires n < |steps|
    ensures SentSteps(steps[..n + 1]) == SentSteps(steps[..n]) + if steps[n].port > 0 then [steps[n]] else []
  {
    assert steps[..n + 1][..n] == steps[..n];
  }

  /**
   * With no cancellation the walk runs to the end and attempts exactly the
   * non-placeholder steps, in their order.
   */
  lemma {:induction false} UncancelledWalk(address: IpAddress, steps: seq<KnockStep>, n: nat, delayMs: int,
                                           net: nat -> SendOutcome, cancelled: Checkpoint -> bool)
    requires n <= |steps|
    requires forall c :: !cancelled(c)
    ensures Walk(address, steps, n, delayMs, net, cancelled).Going?
    ensures Attempts(Walk(address, steps, n, delayMs, net, cancelled).trace) == SentSteps(steps[..n])
  {
    if n > 0 {
      var i := n - 1;
      UncancelledWalk(address, steps, i, delayMs, net, cancelled);
      SentStepsSnoc(steps, i);
      var t := Walk(address, steps, i, delayMs, net, cancelled).trace;
      assert !cancelled(BeforeStep(i)) && !cancelled(DuringDelay(i));
      if steps[i].port <= 0 {
        WalkSkips(address, steps, i, delayMs, net, cancelled);
      } else {
        UncancelledAttempt(address, steps, i, delayMs, net, cancelled);
      }
    }
  }

  /** A real step that no cancellation cuts short adds exactly its own attempt. */
  lemma UncancelledAttempt(address: IpAddress, steps: seq<KnockStep>, i: nat, delayMs: int,
                           net: nat -> SendOutcome, cancelled: Checkpoint -> bool)
    requires i < |steps| && Walk(address, steps, i, delayMs, net, cancelled).Going?
    requires !cancelled(BeforeStep(i)) && !cancelled(DuringDelay(i)) && steps[i].port > 0
    ensures Walk(address, steps, i + 1, delayMs, net, cancelled).Going?
    ensures Attempts(Walk(address, steps, i + 1, delayMs, net, cancelled).trace)
         == Attempts(Walk(address, steps, i, delayMs, net, cancelled).trace) + [steps[i]]
  {
    var t := Walk(address, steps, i, delayMs, net, cancelled).trace;
    WalkAttempts(address, steps, i, delayMs, net, cancelled);
    var tail: seq<Action> := if delayMs > 0 then [Pause(delayMs)] else [];
    var block := [Attempt(steps[i].protocol, address, steps[i].port), Log(StepLine(address, steps[i], net(i)))];
    AttemptsOfStep(steps[i], address, StepLine(address, steps[i], net(i)), tail);
    AttemptsAppend(t, block + tail);
    assert t + block + tail == t + (block + tail);
    assert Walk(address, steps, i + 1, delayMs, net, cancelled).trace == t + block + tail;
  }

  /**
   * KnockAsync throws ArgumentException exactly when the text is blank
   * (parameter "ip") or the list is empty (parameter "steps"); the text is
   * checked first.
   */
  lemma KnockArguments(ip: string, steps: seq<KnockStep>, delayMs: int, dns: string -> DnsResult,
                       net: nat -> SendOutcome, cancelled: Checkpoint -> bool)
    ensures var r := Knock(ip, steps, delayMs, dns, net, cancelled);
            (r.ArgumentError? <==> IsBlank(ip) || |steps| == 0)
            && (IsBlank(ip) ==> r.param == "ip" && r.message == "IP is required")
            && (!IsBlank(ip) && |steps| == 0 ==> r.param == "steps" && r.message == "At least one step is required")
  {
  }

  /** A literal address is used as it is: the resolver is never consulted. */
  lemma LiteralAddressSkipsDns(ip: string, steps: seq<KnockStep>, delayMs: int, dns1: string -> DnsResult,
                               dns2: string -> DnsResult, net: nat -> SendOutcome, cancelled: Checkpoint -> bool)
    requires ParseAddress(Trim(ip)).Some?
    ensures ResolveTarget(ip, dns1) == Address(ParseAddress(Trim(ip)).value)
    ensures Knock(ip, steps, delayMs, dns1, net, cancelled) == Knock(ip, steps, delayMs, dns2, net, cancelled)
  {
  }

  /**
   * Resolution fails exactly when the trimmed text is not an address and the
   * resolver fails (its message is reported) or answers with no address.
   */
  lemma ResolveTargetFails(ip: string, dns: string -> DnsResult)
    ensures ResolveTarget(ip, dns).Unresolved? <==>
      ParseAddress(Trim(ip)).None? && (dns(Trim(ip)).DnsFailure? || |dns(Trim(ip)).addresses| == 0)
    ensures ParseAddress(Trim(ip)).None? && dns(Trim(ip)).DnsFailure? ==>
      ResolveTarget(ip, dns) == Unresolved(dns(Trim(ip)).message)
    ensures ParseAddress(Trim(ip)).None? && dns(Trim(ip)).Resolved? && |dns(Trim(ip)).addresses| > 0 ==>
      ResolveTarget(ip, dns) == Address(PreferredAddress(dns(Trim(ip)).addresses))
    ensures ParseAddress(Trim(ip)).None? && dns(Trim(ip)).Resolved? && |dns(Trim(ip)).addresses| == 0 ==>
      ResolveTarget(ip, dns) == Unresolved("Could not resolve host '" + Trim(ip) + "'.")
  {
  }

  /**
   * A knock that is not cancelled completes: it attempts exactly the
   * non-placeholder steps, in order, all on the resolved address, and its
   * last action, and only that one, is the completion line.
   */
  lemma UncancelledKnockCompletes(ip: string, steps: seq<KnockStep>, delayMs: int, dns: string -> DnsResult,
                                  net: nat -> SendOutcome, cancelled: Checkpoint -> bool)
    requires !IsBlank(ip) && |steps| > 0 && ResolveTarget(ip, dns).Address?
    requires forall c :: !cancelled(c)
    ensures var r := Knock(ip, steps, delayMs, dns, net, cancelled);
            r.Completed?
            && Attempts(r.trace) == SentSteps(steps)
            && (forall k :: 0 <= k < |r.trace| && r.trace[k].Attempt? ==> r.trace[k].address == ResolveTarget(ip, dns).ip)
            && r.trace[|r.trace| - 1] == Log(CompletedLine)
            && Log(CompletedLine) !in r.trace[..|r.trace| - 1]
  {
    var address := ResolveTarget(ip, dns).ip;
    UncancelledWalk(address, steps, |steps|, delayMs, net, cancelled);
    WalkShape(address, steps, |steps|, delayMs, net, cancelled);
    var t := Walk(address, steps, |steps|, delayMs, net, cancelled).trace;
    assert steps[..|steps|] == steps;
    AttemptsAppend(t, [Log(CompletedLine)]);
    assert Attempts([Log(CompletedLine)]) == [] by {
      assert [Log(CompletedLine)][..0] == [];
    }
    assert (t + [Log(CompletedLine)])[..|t|] == t;
  }

  /**
   * However the knock ends after resolution, the completion line is logged
   * once, as the last action, when it completes, and never when a pause was
   * cancelled, which can only happen when pauses are on.
   */
  lemma KnockEnding(ip: string, steps: seq<KnockStep>, delayMs: int, dns: string -> DnsResult,
                    net: nat -> SendOutcome, cancelled: Checkpoint -> bool)
    ensures var r := Knock(ip, steps, delayMs, dns, net, cancelled);
            (r.Completed? ==> |r.trace| > 0 && r.trace[|r.trace| - 1] == Log(CompletedLine)
                              && Log(CompletedLine) !in r.trace[..|r.trace| - 1])
            && (r.Cancelled? ==> delayMs > 0 && Log(CompletedLine) !in r.trace)
  {
    if !IsBlank(ip) && |steps| > 0 && ResolveTarget(ip, dns).Address? {
      var address := ResolveTarget(ip, dns).ip;
      WalkShape(address, steps, |steps|, delayMs, net, cancelled);
      var t := Walk(address, steps, |steps|, delayMs, net, cancelled).trace;
      assert (t + [Log(CompletedLine)])[..|t|] == t;
    }
  }

  /**
   * Cancellation already requested when the first step is reached ends the
   * walk at once, yet the knock still completes with the completion line.
   */
  lemma CancelledBeforeFirstStep(ip: string, steps: seq<KnockStep>, delayMs: int, dns: string -> DnsResult,
                                 net: nat -> SendOutcome, cancelled: Checkpoint -> bool)
    requires !IsBlank(ip) && |steps| > 0 && ResolveTarget(ip, dns).Address?
    requires cancelled(BeforeStep(0))
    ensures Knock(ip, steps, delayMs, dns, net, cancelled) == Completed([Log(CompletedLine)])
  {
    var address := ResolveTarget(ip, dns).ip;
    assert Walk(address, steps, 1, delayMs, net, cancelled) == Broke([]);
    WalkStopped(address, steps, 1, |steps|, delayMs, net, cancelled);
  }

  /** A walk over placeholder steps only adds nothing and is never thrown out of. */
  lemma {:induction false} PlaceholderWalk(address: IpAddress, steps: seq<KnockStep>, n: nat, delayMs: int,
                                           net: nat -> SendOutcome, cancelled: Checkpoint -> bool)
    requires n <= |steps| && forall k :: 0 <= k < |steps| ==> steps[k].port <= 0
    ensures Walk(address, steps, n, delayMs, net, cancelled).trace == []
    ensures !Walk(address, steps, n, delayMs, net, cancelled).Aborted?
  {
    if n > 0 {
      var i := n - 1;
      PlaceholderWalk(address, steps, i, delayMs, net, cancelled);
      if Walk(address, steps, i, delayMs, net, cancelled).Going? {
        if cancelled(BeforeStep(i)) {
          WalkBreaks(address, steps, i, delayMs, net, cancelled);
        } else {
          WalkSkips(address, steps, i, delayMs, net, cancelled);
        }
      } else {
        WalkStopped(address, steps, i, n, delayMs, net, cancelled);
      }
    }
  }

  /**
   * Steps that are all placeholders, such as the four of a new profile,
   * send nothing: once the address is settled the knock only logs that it
   * completed, whatever the network and the cancellation token do.
   */
  lemma PlaceholdersKnockNothing(ip: string, steps: seq<KnockStep>, delayMs: int, dns: string -> DnsResult,
                                 net: nat -> SendOutcome, cancelled: Checkpoint -> bool)
    requires !IsBlank(ip) && ResolveTarget(ip, dns).Address?
    requires |steps| > 0 && forall k :: 0 <= k < |steps| ==> steps[k].port <= 0
    ensures Knock(ip, steps, delayMs, dns, net, cancelled) == Completed([Log(CompletedLine)])
    ensures Knock(ip, NewProfile().steps, delayMs, dns, net, cancelled) == Completed([Log(CompletedLine)])
  {
    var address := ResolveTarget(ip, dns).ip;
    PlaceholderWalk(address, steps, |steps|, delayMs, net, cancelled);
    PlaceholderWalk(address, NewProfile().steps, |NewProfile().steps|, delayMs, net, cancelled);
  }
}
