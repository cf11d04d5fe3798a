/**
 * The daemon: it watches the system configuration store for changes to the
 * GlobalProtect service and, whenever the VPN interface's MTU is not the
 * pinned value, runs `/sbin/ifconfig <iface> mtu <value>`.
 *
 * The OS boundaries are inputs or sinks. The batch of changed keys the store
 * delivers is `Option<seq<string>>`; `None` stands for a payload that is not an
 * array of strings. One `getifaddrs` enumeration is `Option<seq<IfAddr>>`;
 * `None` stands for a failed call. The processes launched are appended to a
 * `ProcessLog`.
 */
module MtuProtect {
  import opened Wrappers
  import opened Text

  newtype uint32 = x: int | 0 <= x < 0x1_0000_0000

  /** The VPN interface whose MTU is pinned. */
  const Vpn: string := "utun4"
  /** The pinned MTU. */
  const PinnedMtu: uint32 := 1280
  /** The substring a changed key must contain for the daemon to react. */
  const ServiceMarker: string := "gpd.pan"
  /** The one configuration key the daemon subscribes to. */
  const WatchedKey: string := "State:/Network/Service/gpd.pan/IPv4"
  /** The tool that changes an interface's MTU. */
  const IfconfigPath: string := "/sbin/ifconfig"

  // ---------------------------------------------------------------------------
  // Interface enumeration and getMTU
  // ---------------------------------------------------------------------------

  /**
   * One record of the `getifaddrs` list. `isLink` says the address family is
   * `AF_LINK`. `data` is the `ifi_mtu` of the attached `if_data`, or `None`
   * when `ifa_data` is nil.
   */
  datatype IfAddr = IfAddr(name: string, isLink: bool, data: Option<uint32>)

  /** The record `getMTU` accepts for `name`: the same name, link family, and data present. */
  predicate IsLinkEntryOf(a: IfAddr, name: string)
  {
    a.name == name && a.isLink && a.data.Some?
  }

  /** The MTU `getMTU` reports for one successful enumeration. */
  function MtuIn(entries: seq<IfAddr>, name: string): uint32
  {
    if entries == [] then 0
    else if IsLinkEntryOf(entries[0], name) then entries[0].data.value
    else MtuIn(entries[1..], name)
  }

  /** The MTU `getMTU` reports, counting a failed enumeration. */
  function ObservedMtu(enumeration: Option<seq<IfAddr>>, name: string): uint32
  {
    match enumeration
    case None => 0
    case Some(entries) => MtuIn(entries, name)
  }

  /**
   * What `getMTU` reads: 0 for a failed enumeration; otherwise the MTU of the
   * first accepted record, or 0 when no record is accepted.
   */
  lemma ObservedMtuIs(enumeration: Option<seq<IfAddr>>, name: string)
    ensures enumeration.None? ==> ObservedMtu(enumeration, name) == 0
    ensures enumeration.Some? ==> var entries := enumeration.value;
      || (exists i :: 0 <= i < |entries| && IsLinkEntryOf(entries[i], name)
           && (forall j :: 0 <= j < i ==> !IsLinkEntryOf(entries[j], name))
           && ObservedMtu(enumeration, name) == entries[i].data.value)
      || ((forall j :: 0 <= j < |entries| ==> !IsLinkEntryOf(entries[j], name))
           && ObservedMtu(enumeration, name) == 0)
  {
    if enumeration.Some? {
      var entries := enumeration.value;
      if exists i :: 0 <= i < |entries| && IsLinkEntryOf(entries[i], name) {
        var i := FirstAccepted(entries, name);
        MtuInFirstMatch(entries, name, i);
      } else {
        MtuInNoMatch(entries, name);
      }
    }
  }

  /** The index of the first accepted record, when there is one. */
  lemma {:induction false} FirstAccepted(entries: seq<IfAddr>, name: string) returns (i: nat)
    requires exists i :: 0 <= i < |entries| && IsLinkEntryOf(entries[i], name)
    ensures i < |entries| && IsLinkEntryOf(entries[i], name)
    ensures forall j :: 0 <= j < i ==> !IsLinkEntryOf(entries[j], name)
    decreases |entries|
  {
    if IsLinkEntryOf(entries[0], name) {
      i := 0;
    } else {
      var k :| 0 <= k < |entries| && IsLinkEntryOf(entries[k], name);
      assert IsLinkEntryOf(entries[1..][k - 1], name);
      var r := FirstAccepted(entries[1..], name);
      assert forall j :: 0 < j <= r ==> entries[j] == entries[1..][j - 1];
      i := r + 1;
    }
  }

  /** The first accepted record, in list order, gives the result. */
  lemma {:induction false} MtuInFirstMatch(entries: seq<IfAddr>, name: string, i: nat)
    requires i < |entries| && IsLinkEntryOf(entries[i], name)
    requires forall j :: 0 <= j < i ==> !IsLinkEntryOf(entries[j], name)
    ensures MtuIn(entries, name) == entries[i].data.value
    decreases i
  {
    if i > 0 {
      MtuInFirstMatch(entries[1..], name, i - 1);
    }
  }

  /** With no accepted record the result is 0. */
  lemma {:induction false} MtuInNoMatch(entries: seq<IfAddr>, name: string)
    requires forall j :: 0 <= j < |entries| ==> !IsLinkEntryOf(entries[j], name)
    ensures MtuIn(entries, name) == 0
    decreases |entries|
  {
    if entries != [] {
      MtuInNoMatch(entries[1..], name);
    }
  }

  /**
   * Records that are not accepted are skipped. This includes records with the
   * right name but another family or no data. The scan goes on past them.
   */
  lemma {:induction false} MtuInSkips(skipped: seq<IfAddr>, rest: seq<IfAddr>, name: string)
    requires forall j :: 0 <= j < |skipped| ==> !IsLinkEntryOf(skipped[j], name)
    ensures MtuIn(skipped + rest, name) == MtuIn(rest, name)
    decreases |skipped|
  {
    if skipped != [] {
      assert (skipped + rest)[1..] == skipped[1..] + rest;
      MtuInSkips(skipped[1..], rest, name);
    } else {
      assert skipped + rest == rest;
    }
  }

  /** `getMTU`: a first-match scan of the enumeration, 0 when it fails or nothing matches. */
  method GetMtu(enumeration: Option<seq<IfAddr>>, name: string) returns (mtu: uint32)
    ensures mtu == ObservedMtu(enumeration, name)
  {
    if enumeration.None? {
      return 0;
    }
    var entries := enumeration.value;
    var k := 0;
    while k < |entries|
      invariant 0 <= k <= |entries|
      invariant MtuIn(entries[k..], name) == MtuIn(entries, name)
    {
      if IsLinkEntryOf(entries[k], name) {
        return entries[k].data.value;
      }
      assert entries[k..][1..] == entries[k + 1..];
      k := k + 1;
    }
    return 0;
  }

  // ---------------------------------------------------------------------------
  // The walk of getMTU as written
  // ---------------------------------------------------------------------------

  /*
   * `getMTU` walks the list with `sequence(first: ifaddr, next: ...)`. The
   * element type of that sequence is itself optional, so the
   * closure's answer for the last record is a nil element, not the end of the
   * sequence. The loop force-unwraps every element, so it traps on that nil
   * element. `return 0` is reached only by the corrected scan above.
   */

  /** The elements the walk yields: every record, then a nil element (`None`). */
  function WalkedElements(entries: seq<IfAddr>): seq<Option<IfAddr>>
  {
    if entries == [] then [None] else [Some(entries[0])] + WalkedElements(entries[1..])
  }

  /** The loop of `getMTU` as written. `None` is the trap at the force-unwrap of a nil element. */
  function WalkAsWritten(elements: seq<Option<IfAddr>>, name: string): Option<uint32>
  {
    if elements == [] then Some(0 as uint32)
    else match elements[0]
      case None => None
      case Some(a) => if IsLinkEntryOf(a, name) then Some(a.data.value) else WalkAsWritten(elements[1..], name)
  }

  /**
   * As written, the walk traps exactly when no record is accepted. When it
   * does not trap, it returns what the corrected scan returns.
   */
  lemma {:induction false} WalkAsWrittenTraps(entries: seq<IfAddr>, name: string)
    ensures var w := WalkAsWritten(WalkedElements(entries), name);
      && (w.None? <==> forall j :: 0 <= j < |entries| ==> !IsLinkEntryOf(entries[j], name))
      && (w.Some? ==> w.value == MtuIn(entries, name))
    decreases |entries|
  {
    if entries != [] {
      WalkAsWrittenTraps(entries[1..], name);
      var elements := WalkedElements(entries);
      assert elements[0] == Some(entries[0]) && elements[1..] == WalkedElements(entries[1..]);
      assert forall j :: 0 < j < |entries| ==> entries[j] == entries[1..][j - 1];
    }
  }

  /**
   * A counterexample: with only the loopback interface up, the walk as written
   * traps, where the intended result is 0.
   */
  lemma AbsentVpnTrapsAsWritten()
    ensures WalkAsWritten(WalkedElements([IfAddr("lo0", true, Some(16384))]), Vpn) == None
    ensures ObservedMtu(Some([IfAddr("lo0", true, Some(16384))]), Vpn) == 0
  {
  }

  // ---------------------------------------------------------------------------
  // setMTU
  // ---------------------------------------------------------------------------

  /** One process launch and wait: the `launchPath` and the `arguments`. */
  datatype Launch = Launch(path: string, arguments: seq<string>)

  /** The argument vector `setMTU` gives to ifconfig. */
  function IfconfigArguments(iface: string, mtu: uint32): (argv: seq<string>)
    ensures |argv| == 3 && argv[0] == iface && argv[1] == "mtu"
    ensures ParseDecimal(argv[2]) == Some(mtu as nat)
  {
    DecimalRoundTrip(mtu as nat);
    [iface, "mtu", Decimal(mtu as nat)]
  }

  /** The launch `setMTU` performs: `/sbin/ifconfig <iface> mtu <decimal mtu>`. */
  function IfconfigLaunch(iface: string, mtu: uint32): (l: Launch)
    ensures l.path == "/sbin/ifconfig"
    ensures |l.arguments| == 3 && l.arguments[..2] == [iface, "mtu"]
    ensures ParseDecimal(l.arguments[2]) == Some(mtu as nat)
  {
    Launch(IfconfigPath, IfconfigArguments(iface, mtu))
  }

  /** The pinned value in its rendered form. */
  lemma PinnedMtuText()
    ensures Decimal(PinnedMtu as nat) == "1280"
  {
    assert Decimal(1) == "1";
    assert Decimal(12) == Decimal(1) + [DigitChar(2)];
    assert Decimal(128) == Decimal(12) + [DigitChar(8)];
    assert Decimal(1280) == Decimal(128) + [DigitChar(0)];
  }

  /** The launch that pins the VPN: `/sbin/ifconfig utun4 mtu 1280`. */
  lemma PinningLaunch()
    ensures IfconfigLaunch(Vpn, PinnedMtu) == Launch("/sbin/ifconfig", ["utun4", "mtu", "1280"])
  {
    PinnedMtuText();
  }

  /** The processes the daemon has launched, oldest first. */
  class ProcessLog {
    var launches: seq<Launch>

    constructor ()
      ensures launches == []
    {
      launches := [];
    }

    /** Launches one process and waits for it; its exit status is not looked at. */
    method Run(path: string, arguments: seq<string>)
      modifies this
      ensures launches == old(launches) + [Launch(path, arguments)]
    {
      launches := launches + [Launch(path, arguments)];
    }
  }

  /** `setMTU`: one ifconfig launch with the fixed argument vector. */
  method SetMtu(log: ProcessLog, iface: string, mtu: uint32)
    modifies log
    ensures log.launches == old(log.launches) + [IfconfigLaunch(iface, mtu)]
  {
    log.Run(IfconfigPath, IfconfigArguments(iface, mtu));
  }

  // ---------------------------------------------------------------------------
  // The change callback
  // ---------------------------------------------------------------------------

  /** The callback's filter on a batch: some changed key contains "gpd.pan". */
  predicate Relevant(changed: Option<seq<string>>)
  {
    changed.Some? && exists k | k in changed.value :: HasInfix(k, ServiceMarker)
  }

  /** The filter holds exactly for a string array with a key in which "gpd.pan" occurs somewhere. */
  lemma RelevantIff(changed: Option<seq<string>>)
    ensures Relevant(changed) <==>
      changed.Some? && exists k, i :: k in changed.value && OccursAt(k, ServiceMarker, i)
  {
    if changed.Some? {
      forall k | k in changed.value {
        HasInfixIff(k, ServiceMarker);
      }
    }
  }

  /** The launches one notification causes. */
  function Reaction(changed: Option<seq<string>>, enumeration: Option<seq<IfAddr>>): seq<Launch>
  {
    if Relevant(changed) && ObservedMtu(enumeration, Vpn) != PinnedMtu
    then [IfconfigLaunch(Vpn, PinnedMtu)]
    else []
  }

  /**
   * The store callback. The MTU is read only for a relevant batch.
   * `observed` is that reading, or `None` when the batch was filtered out.
   * The ifconfig launch happens only when the reading is not the pinned value.
   */
  method OnStoreChange(log: ProcessLog, changed: Option<seq<string>>, enumeration: Option<seq<IfAddr>>)
    returns (observed: Option<uint32>)
    modifies log
    ensures observed.Some? <==> Relevant(changed)
    ensures observed.Some? ==> observed.value == ObservedMtu(enumeration, Vpn)
    ensures log.launches == old(log.launches) + Reaction(changed, enumeration)
  {
    if !Relevant(changed) {
      return None;
    }
    var current := GetMtu(enumeration, Vpn);
    observed := Some(current);
    if current != PinnedMtu {
      SetMtu(log, Vpn, PinnedMtu);
    }
  }

  /**
   * A notification makes at most one launch, and only the pinning one. It
   * launches exactly when it is relevant and the reading is not the pinned MTU.
   */
  lemma ReactionIsPinningOrNothing(changed: Option<seq<string>>, enumeration: Option<seq<IfAddr>>)
    ensures Reaction(changed, enumeration) == [] || Reaction(changed, enumeration) == [IfconfigLaunch(Vpn, PinnedMtu)]
    ensures Reaction(changed, enumeration) != [] <==> Relevant(changed) && ObservedMtu(enumeration, Vpn) != PinnedMtu
  {
  }

  /** The subscribed key passes the callback's own filter. */
  lemma WatchedKeyIsRelevant()
    ensures Relevant(Some([WatchedKey]))
  {
    assert WatchedKey[23..30] == ServiceMarker;
    assert OccursAt(WatchedKey, ServiceMarker, 23);
    HasInfixIff(WatchedKey, ServiceMarker);
    assert WatchedKey in [WatchedKey];
  }

  /** A notification for the subscribed key launches exactly when the MTU is off. */
  lemma {:induction false} WatchedKeyReaction(enumeration: Option<seq<IfAddr>>)
    ensures |Reaction(Some([WatchedKey]), enumeration)| == (if ObservedMtu(enumeration, Vpn) == PinnedMtu then 0 else 1)
  {
    WatchedKeyIsRelevant();
  }

  // ---------------------------------------------------------------------------
  // Idempotence
  // ---------------------------------------------------------------------------

  /**
   * The enumeration after `ifconfig name mtu m` has taken effect. Every
   * accepted record for `name` reports `m`. Nothing else changes.
   */
  function AfterSetMtu(entries: seq<IfAddr>, name: string, m: uint32): (r: seq<IfAddr>)
    ensures |r| == |entries|
    ensures forall j :: 0 <= j < |r| ==> IsLinkEntryOf(r[j], name) == IsLinkEntryOf(entries[j], name)
  {
    seq(|entries|, j requires 0 <= j < |entries| =>
      if IsLinkEntryOf(entries[j], name) then entries[j].(data := Some(m)) else entries[j])
  }

  /** Once the MTU has been changed, a present interface reports the pinned value. */
  lemma {:induction false} MtuAfterSet(entries: seq<IfAddr>, name: string, m: uint32)
    requires exists j :: 0 <= j < |entries| && IsLinkEntryOf(entries[j], name)
    ensures MtuIn(AfterSetMtu(entries, name, m), name) == m
    decreases |entries|
  {
    var after := AfterSetMtu(entries, name, m);
    if !IsLinkEntryOf(entries[0], name) {
      var j :| 0 <= j < |entries| && IsLinkEntryOf(entries[j], name);
      assert j > 0 && IsLinkEntryOf(entries[1..][j - 1], name);
      assert after[1..] == AfterSetMtu(entries[1..], name, m);
      MtuAfterSet(entries[1..], name, m);
    }
  }

  /**
   * Reconciliation is idempotent. Suppose one notification launches ifconfig
   * for a present interface, and the change takes effect. Then no later
   * notification launches anything, and the two together make exactly the
   * one pinning launch.
   */
  lemma ReactionSettles(first: Option<seq<string>>, entries: seq<IfAddr>, later: Option<seq<string>>)
    requires exists j :: 0 <= j < |entries| && IsLinkEntryOf(entries[j], Vpn)
    requires Reaction(first, Some(entries)) != []
    ensures Reaction(later, Some(AfterSetMtu(entries, Vpn, PinnedMtu))) == []
    ensures Reaction(first, Some(entries)) + Reaction(later, Some(AfterSetMtu(entries, Vpn, PinnedMtu))) == [IfconfigLaunch(Vpn, PinnedMtu)]
  {
    MtuAfterSet(entries, Vpn, PinnedMtu);
  }

  /**
   * When no accepted record for the VPN exists, `getMTU` reads 0. Each
   * relevant notification then launches ifconfig again.
   */
  lemma AbsentVpnRetries(changed: Option<seq<string>>, entries: seq<IfAddr>)
    requires Relevant(changed)
    requires forall j :: 0 <= j < |entries| ==> !IsLinkEntryOf(entries[j], Vpn)
    ensures Reaction(changed, Some(entries)) == [IfconfigLaunch(Vpn, PinnedMtu)]
    ensures Reaction(changed, Some(AfterSetMtu(entries, Vpn, PinnedMtu))) == [IfconfigLaunch(Vpn, PinnedMtu)]
  {
    MtuInNoMatch(entries, Vpn);
    MtuInNoMatch(AfterSetMtu(entries, Vpn, PinnedMtu), Vpn);
  }
}
