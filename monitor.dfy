/**
 * The connection monitor: it polls the table of active TCP connections and
 * reports each outbound connection to a watched remote port the first time
 * it is seen in state SynSent or Established (the states of section 3.3.2 of
 * RFC 9293). What has been seen is remembered as a set of
 * (address, port, state) keys, trimmed after every scan to the keys of the
 * current table.
 */
module Monitor {

  import opened Wrappers
  import opened Net

  /** System.Net.NetworkInformation.TcpState. */
  datatype TcpState =
    | Unknown | Closed | Listen | SynSent | SynReceived | Established
    | FinWait1 | FinWait2 | CloseWait | Closing | LastAck | TimeWait | DeleteTcb

  /** One row of the active-connection table: the remote end point and the state. */
  datatype TcpConnection = TcpConnection(remoteAddress: IpAddress, remotePort: int, state: TcpState)

  /**
   * The seen-set key "address:port:state". The source builds it as text;
   * the text determines the triple (the port is the digits between the last
   * two colons and the state name has no colon), so the triple stands for it.
   */
  datatype ConnKey = ConnKey(address: IpAddress, port: int, state: TcpState)

  /** NewOutboundConnection(remoteIp, remotePort). */
  datatype OutboundEvent = OutboundEvent(remoteIp: string, remotePort: int)

  /** The port watched when nothing else is configured. */
  const DefaultWatchPort: int := 8291

  function KeyOf(c: TcpConnection): ConnKey {
    ConnKey(c.remoteAddress, c.remotePort, c.state)
  }

  function EventOf(c: TcpConnection): OutboundEvent {
    OutboundEvent(AddressText(c.remoteAddress), c.remotePort)
  }

  /** The states in which a newly seen connection is reported. */
  predicate Reportable(s: TcpState) {
    s == SynSent || s == Established
  }

  /** The keys of the connections to watched ports in a table. */
  function WatchedKeys(ports: seq<int>, table: seq<TcpConnection>): set<ConnKey>
  {
    set i | 0 <= i < |table| && table[i].remotePort in ports :: KeyOf(table[i])
  }

  /**
   * The events one scan raises, in table order, from the set seen before it:
   * a connection to a watched port raises when its state is reportable and
   * its key is neither in that set nor the key of an earlier connection of
   * the same table.
   */
  function ScanEvents(seen: set<ConnKey>, ports: seq<int>, table: seq<TcpConnection>): seq<OutboundEvent>
  {
    if table == [] then []
    else
      var init := table[..|table| - 1];
      var c := table[|table| - 1];
      ScanEvents(seen, ports, init)
      + if c.remotePort in ports && KeyOf(c) !in seen + WatchedKeys(ports, init) && Reportable(c.state)
        then [EventOf(c)] else []
  }

  /** Connection i of the table raises an event in a scan that starts from `seen`. */
  predicate Raises(seen: set<ConnKey>, ports: seq<int>, table: seq<TcpConnection>, i: int) {
    0 <= i < |table| && table[i].remotePort in ports && Reportable(table[i].state) && KeyOf(table[i]) !in seen
    && forall j :: 0 <= j < i ==> KeyOf(table[j]) != KeyOf(table[i])
  }

  class ConnectionMonitor {
    var enabled: bool
    var seen: set<ConnKey>
    var watchPorts: seq<int>

    /** A new monitor is disabled, has seen nothing and watches port 8291. */
    constructor()
      ensures !enabled && seen == {} && watchPorts == [DefaultWatchPort]
    {
      enabled := false;
      seen := {};
      watchPorts := [DefaultWatchPort];
    }

    /** Start: enables the monitor; starting an enabled monitor does nothing. */
    method Start()
      modifies this
      ensures enabled
      ensures seen == old(seen) && watchPorts == old(watchPorts)
    {
      if enabled {
        return;
      }
      enabled := true;
    }

    /** Stop: disables the monitor and keeps what it has seen. */
    method Stop()
      modifies this
      ensures !enabled
      ensures seen == old(seen) && watchPorts == old(watchPorts)
    {
      enabled := false;
    }

    /**
     * ScanOnce over one snapshot of the connection table: returns the events
     * raised, and leaves the seen set equal to the keys of the watched
     * connections of the snapshot.
     */
    method ScanOnce(table: seq<TcpConnection>) returns (events: seq<OutboundEvent>)
      modifies this
      ensures events == ScanEvents(old(seen), watchPorts, table)
      ensures seen == WatchedKeys(watchPorts, table)
      ensures enabled == old(enabled) && watchPorts == old(watchPorts)
    {
      events := [];
      var i := 0;
      while i < |table|
        invariant 0 <= i <= |table|
        invariant watchPorts == old(watchPorts) && enabled == old(enabled)
        invariant seen == old(seen) + WatchedKeys(watchPorts, table[..i])
        invariant events == ScanEvents(old(seen), watchPorts, table[..i])
      {
        var c := table[i];
        assert table[..i + 1] == table[..i] + [c];
        WatchedKeysSnoc(watchPorts, table[..i], c);
        ScanEventsSnoc(old(seen), watchPorts, table[..i], c);
        if c.remotePort in watchPorts {
          var key := KeyOf(c);
          if key !in seen {
            seen := seen + {key};
            if Reportable(c.state) {
              events := events + [EventOf(c)];
            }
          }
        }
        i := i + 1;
      }
      assert table[..i] == table;
      var current := WatchedKeys(watchPorts, table);
      seen := set k | k in seen && k in current;
    }

    /**
     * LoopAsync until cancellation: one scan per snapshot; a snapshot that
     * could not be read (None: the table query threw) is skipped, and the
     * loop goes on.
     */
    method Run(snapshots: seq<Option<seq<TcpConnection>>>) returns (events: seq<OutboundEvent>)
      modifies this
      ensures events == RunEvents(old(seen), watchPorts, snapshots)
      ensures seen == SeenAfter(old(seen), watchPorts, snapshots)
      ensures enabled == old(enabled) && watchPorts == old(watchPorts)
    {
      events := [];
      var i := 0;
      while i < |snapshots|
        invariant 0 <= i <= |snapshots|
        invariant watchPorts == old(watchPorts) && enabled == old(enabled)
        invariant seen == SeenAfter(old(seen), watchPorts, snapshots[..i])
        invariant events == RunEvents(old(seen), watchPorts, snapshots[..i])
      {
        assert snapshots[..i + 1] == snapshots[..i] + [snapshots[i]];
        RunSnoc(old(seen), watchPorts, snapshots[..i], snapshots[i]);
        if snapshots[i].Some? {
          var raised := ScanOnce(snapshots[i].value);
          events := events + raised;
        }
        i := i + 1;
      }
      assert snapshots[..i] == snapshots;
    }
  }

  /** The seen set after a series of polls. */
  function SeenAfter(seen: set<ConnKey>, ports: seq<int>, snapshots: seq<Option<seq<TcpConnection>>>): set<ConnKey>
  {
    if snapshots == [] then seen
    else
      var before := SeenAfter(seen, ports, snapshots[..|snapshots| - 1]);
      match snapshots[|snapshots| - 1]
      case None => before
      case Some(table) => WatchedKeys(ports, table)
  }

  /** The events of a series of polls, in order. */
  function RunEvents(seen: set<ConnKey>, ports: seq<int>, snapshots: seq<Option<seq<TcpConnection>>>): seq<OutboundEvent>
  {
    if snapshots == [] then []
    else
      var init := snapshots[..|snapshots| - 1];
      RunEvents(seen, ports, init)
      + match snapshots[|snapshots| - 1]
        case None => []
        case Some(table) => ScanEvents(SeenAfter(seen, ports, init), ports, table)
  }

  lemma RunSnoc(seen: set<ConnKey>, ports: seq<int>, init: seq<Option<seq<TcpConnection>>>, s: Option<seq<TcpConnection>>)
    ensures SeenAfter(seen, ports, init + [s]) == if s.Some? then WatchedKeys(ports, s.value) else SeenAfter(seen, ports, init)
    ensures RunEvents(seen, ports, init + [s]) ==
      RunEvents(seen, ports, init) + if s.Some? then ScanEvents(SeenAfter(seen, ports, init), ports, s.value) else []
  {
    assert (init + [s])[..|init + [s]| - 1] == init;
  }

  lemma ScanEventsSnoc(seen: set<ConnKey>, ports: seq<int>, init: seq<TcpConnection>, c: TcpConnection)
    ensures ScanEvents(seen, ports, init + [c]) == ScanEvents(seen, ports, init)
      + if c.remotePort in ports && KeyOf(c) !in seen + WatchedKeys(ports, init) && Reportable(c.state)
        then [EventOf(c)] else []
  {
    assert (init + [c])[..|init|] == init;
  }

  lemma WatchedKeysSnoc(ports: seq<int>, init: seq<TcpConnection>, c: TcpConnection)
    ensures WatchedKeys(ports, init + [c]) == WatchedKeys(ports, init) + if c.remotePort in ports then {KeyOf(c)} else {}
  {
    var t := init + [c];
    forall k | k in WatchedKeys(ports, t)
      ensures k in WatchedKeys(ports, init) + if c.remotePort in ports then {KeyOf(c)} else {}
    {
      var i :| 0 <= i < |t| && t[i].remotePort in ports && KeyOf(t[i]) == k;
      if i < |init| {
        assert t[i] == init[i];
      }
    }
    forall k | k in WatchedKeys(ports, init) ensures k in WatchedKeys(ports, t) {
      var i :| 0 <= i < |init| && init[i].remotePort in ports && KeyOf(init[i]) == k;
      assert t[i] == init[i];
    }
    if c.remotePort in ports {
      assert t[|init|] == c;
    }
  }

  /**
   * The events of a scan are exactly those of the connections that raise:
   * watched, in a reportable state, not seen before the scan and not a
   * repeat of an earlier key of the same table.
   */
  lemma {:induction false} ScanEventsMeaning(seen: set<ConnKey>, ports: seq<int>, table: seq<TcpConnection>)
    ensures forall i :: Raises(seen, ports, table, i) ==> EventOf(table[i]) in ScanEvents(seen, ports, table)
    ensures forall e :: e in ScanEvents(seen, ports, table) ==>
      exists i :: Raises(seen, ports, table, i) && e == EventOf(table[i])
  {
    if table != [] {
      var n := |table| - 1;
      var init, c := table[..n], table[n];
      assert table == init + [c];
      ScanEventsSnoc(seen, ports, init, c);
      ScanEventsMeaning(seen, ports, init);
      forall i | 0 <= i < n ensures Raises(seen, ports, table, i) <==> Raises(seen, ports, init, i) {
        assert table[i] == init[i];
        assert forall j :: 0 <= j < i ==> table[j] == init[j];
      }
      assert Raises(seen, ports, table, n) <==>
        c.remotePort in ports && KeyOf(c) !in seen + WatchedKeys(ports, init) && Reportable(c.state) by {
        if c.remotePort in ports && KeyOf(c) in WatchedKeys(ports, init) {
          var j :| 0 <= j < n && init[j].remotePort in ports && KeyOf(init[j]) == KeyOf(c);
          assert KeyOf(table[j]) == KeyOf(table[n]);
        }
        if c.remotePort in ports && !Raises(seen, ports, table, n) && KeyOf(c) !in seen && Reportable(c.state) {
          var j :| 0 <= j < n && KeyOf(table[j]) == KeyOf(table[n]);
          assert init[j].remotePort == c.remotePort;
          assert KeyOf(c) in WatchedKeys(ports, init);
        }
      }
    }
  }

  /** Only connections to watched ports are reported. */
  lemma ScanReportsWatchedPorts(seen: set<ConnKey>, ports: seq<int>, table: seq<TcpConnection>)
    ensures forall e :: e in ScanEvents(seen, ports, table) ==> e.remotePort in ports
  {
    ScanEventsMeaning(seen, ports, table);
  }

  /** A scan raises nothing when every watched connection of the table has been seen. */
  lemma {:induction false} SeenTableRaisesNothing(seen: set<ConnKey>, ports: seq<int>, table: seq<TcpConnection>)
    requires WatchedKeys(ports, table) <= seen
    ensures ScanEvents(seen, ports, table) == []
  {
    if table != [] {
      var n := |table| - 1;
      var init, c := table[..n], table[n];
      assert table == init + [c];
      WatchedKeysSnoc(ports, init, c);
      ScanEventsSnoc(seen, ports, init, c);
      SeenTableRaisesNothing(seen, ports, init);
    }
  }

  /** Scanning an unchanged table again raises nothing. */
  lemma RescanRaisesNothing(ports: seq<int>, table: seq<TcpConnection>)
    ensures ScanEvents(WatchedKeys(ports, table), ports, table) == []
  {
    SeenTableRaisesNothing(WatchedKeys(ports, table), ports, table);
  }

  /**
   * A connection first seen in SynSent and then in Established is reported
   * again, because the state is part of the key.
   */
  lemma StateChangeRaisesAgain(ports: seq<int>, address: IpAddress, port: int)
    requires port in ports
    ensures var syn := TcpConnection(address, port, SynSent);
            var est := TcpConnection(address, port, Established);
            ScanEvents({}, ports, [syn]) == [EventOf(syn)]
            && ScanEvents(WatchedKeys(ports, [syn]), ports, [est]) == [EventOf(est)]
  {
    var syn := TcpConnection(address, port, SynSent);
    var est := TcpConnection(address, port, Established);
    assert [syn][..0] == [] && [est][..0] == [];
    assert [syn][0] == syn;
    assert KeyOf(syn) in WatchedKeys(ports, [syn]);
    assert KeyOf(est) !in WatchedKeys(ports, [syn]);
  }

  /**
   * Connections that vanish for one poll are reported again when they come
   * back: the seen set was trimmed to the empty table in between.
   */
  lemma ReappearingConnectionsRaiseAgain(seen: set<ConnKey>, ports: seq<int>, table: seq<TcpConnection>)
    ensures RunEvents(seen, ports, [Some(table), Some([]), Some(table)])
         == ScanEvents(seen, ports, table) + ScanEvents({}, ports, table)
  {
    var a: Option<seq<TcpConnection>> := Some(table);
    var b: Option<seq<TcpConnection>> := Some([]);
    var one, two := [a], [a, b];
    assert [] + [a] == one && one + [b] == two && two + [a] == [a, b, a];
    RunSnoc(seen, ports, [], a);
    assert RunEvents(seen, ports, one) == ScanEvents(seen, ports, table);
    assert SeenAfter(seen, ports, one) == WatchedKeys(ports, table);
    RunSnoc(seen, ports, one, b);
    assert WatchedKeys(ports, []) == {};
    assert RunEvents(seen, ports, two) == ScanEvents(seen, ports, table);
    assert SeenAfter(seen, ports, two) == {};
    RunSnoc(seen, ports, two, a);
  }

  /** A poll whose table could not be read changes nothing and reports nothing. */
  lemma FailedPollSkipped(seen: set<ConnKey>, ports: seq<int>, snapshots: seq<Option<seq<TcpConnection>>>)
    ensures SeenAfter(seen, ports, snapshots + [None]) == SeenAfter(seen, ports, snapshots)
    ensures RunEvents(seen, ports, snapshots + [None]) == RunEvents(seen, ports, snapshots)
  {
    RunSnoc(seen, ports, snapshots, None);
  }
}
