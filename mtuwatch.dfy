/**
 * The menu-bar client of the daemon's control socket. It sends one command per
 * connection and reads one reply. It decides whether the daemon runs from the
 * `STATUS` reply. It lists interfaces from the `LIST` reply as tagged menu
 * items. It reports whether a `SET` request succeeded.
 *
 * The socket I/O is not modelled. A reply is the number of bytes `read`
 * returned, together with the UTF-8 decoding of those bytes (`None` when they
 * do not decode). The stored VPN interface name from the user defaults is an
 * `Option<string>`.
 */
module MtuWatch {
  import opened Wrappers
  import opened Text

  /** The VPN interface assumed when none has been stored. */
  const DefaultVpn: string := "utun4"
  /** Tag of the "Status: ..." item. */
  const StatusTag: int := 100
  /** Tag of the "Interfaces" header item. */
  const InterfacesTag: int := 200
  /** Interface items carry tags from here ... */
  const FirstInterfaceTag: int := 300
  /** ... up to, but excluding, this one. */
  const InterfaceTagEnd: int := 400
  /** Appended to the title of the VPN interface's item. */
  const VpnMarkerText: string := " \U{2713}"
  /** The framed liveness probe. */
  const StatusRequest: string := "STATUS\n"
  /** The listing command, before framing. */
  const ListCommand: string := "LIST"

  // ---------------------------------------------------------------------------
  // Requests and replies
  // ---------------------------------------------------------------------------

  /** `sendCommand` frames a command with one trailing newline. */
  function Frame(command: string): (request: string)
    ensures |request| == |command| + 1 && request[..|command|] == command && request[|command|] == '\n'
  {
    command + "\n"
  }

  /** The command `setInterfaceMTU` sends: `SET:<iface>:1280`. */
  function SetCommand(iface: string): string
  {
    "SET:" + iface + ":1280"
  }

  /**
   * What `sendCommand` returns for a reply. `None` when nothing was read or
   * the bytes do not decode. Otherwise the decoded text without surrounding
   * whitespace.
   */
  function Reply(bytesRead: int, decoded: Option<string>): (r: Option<string>)
    ensures r.Some? <==> bytesRead > 0 && decoded.Some?
    ensures r.Some? ==> Trimmed(r.value) && r.value == Trim(decoded.value)
  {
    if bytesRead > 0 && decoded.Some? then Some(Trim(decoded.value)) else None
  }

  /** A reply whose text is `t` with whitespace and newlines around it comes back as `t`. */
  lemma ReplyPadded(bytesRead: int, a: string, t: string, b: string)
    requires bytesRead > 0
    requires AllSpace(a) && AllSpace(b) && Trimmed(t)
    ensures Reply(bytesRead, Some(a + t + b)) == Some(t)
  {
    TrimPadded(a, t, b);
  }

  /** `checkDaemonStatus` on a reply: something was read, and it is "OK" once trimmed. */
  predicate StatusAccepted(bytesRead: int, decoded: Option<string>)
  {
    bytesRead > 0 && decoded.Some? && Trim(decoded.value) == "OK"
  }

  /** `t` is "OK" with only whitespace and newlines around it. */
  ghost predicate PaddedOk(t: string)
  {
    exists i :: 0 <= i && i + 2 <= |t| && AllSpace(t[..i]) && t[i..i + 2] == "OK" && AllSpace(t[i + 2..])
  }

  /** The status check accepts exactly the replies "OK" padded with whitespace. */
  lemma StatusAcceptedIff(bytesRead: int, decoded: Option<string>)
    ensures StatusAccepted(bytesRead, decoded) <==> bytesRead > 0 && decoded.Some? && PaddedOk(decoded.value)
  {
    if bytesRead > 0 && decoded.Some? {
      TrimIsOkIff(decoded.value);
    }
  }

  lemma TrimIsOkIff(t: string)
    ensures Trim(t) == "OK" <==> PaddedOk(t)
  {
    if Trim(t) == "OK" {
      TrimOkIsPadded(t);
    }
    if PaddedOk(t) {
      var i :| 0 <= i && i + 2 <= |t| && AllSpace(t[..i]) && t[i..i + 2] == "OK" && AllSpace(t[i + 2..]);
      PaddedOkTrims(t, i);
    }
  }

  lemma TrimOkIsPadded(t: string)
    requires Trim(t) == "OK"
    ensures PaddedOk(t)
  {
    var i := TrimShape(t);
    assert t[i..i + 2] == "OK";
  }

  lemma PaddedOkTrims(t: string, i: nat)
    requires i + 2 <= |t| && AllSpace(t[..i]) && t[i..i + 2] == "OK" && AllSpace(t[i + 2..])
    ensures Trim(t) == "OK"
  {
    assert t == t[..i] + "OK" + t[i + 2..];
    assert Trimmed("OK") by {
      assert !IsSpace('O') && !IsSpace('K');
    }
    TrimPadded(t[..i], "OK", t[i + 2..]);
  }

  /** How `setInterfaceMTU` ends. */
  datatype SetOutcome =
    | NoReply              // sendCommand gave nil: nothing is shown
    | Confirmed            // the reply starts with "OK"
    | Refused(reply: string)  // any other reply, shown in an error alert

  function SetOutcomeOf(reply: Option<string>): (o: SetOutcome)
    ensures o == NoReply <==> reply.None?
    ensures o == Confirmed <==> reply.Some? && HasPrefix(reply.value, "OK")
    ensures o.Refused? ==> o.reply == reply.value
  {
    match reply
    case None => NoReply
    case Some(text) => if HasPrefix(text, "OK") then Confirmed else Refused(text)
  }

  /**
   * A reply whose text is `t` with whitespace around it counts as a successful
   * `SET` exactly when `t` starts with "OK".
   */
  lemma SetOutcomeOfPadded(bytesRead: int, a: string, t: string, b: string)
    requires bytesRead > 0
    requires AllSpace(a) && AllSpace(b) && Trimmed(t)
    ensures SetOutcomeOf(Reply(bytesRead, Some(a + t + b))) == (if HasPrefix(t, "OK") then Confirmed else Refused(t))
  {
    TrimPadded(a, t, b);
  }

  /**
   * The two checks differ on a reply whose trimmed text is `t`. The status
   * check wants `t` to be exactly "OK". A `SET` is confirmed whenever `t`
   * starts with "OK", so "OKAY" confirms a `SET` but is not a live status.
   */
  lemma StatusStricterThanSet(bytesRead: int, a: string, t: string, b: string)
    requires bytesRead > 0
    requires AllSpace(a) && AllSpace(b) && Trimmed(t)
    ensures StatusAccepted(bytesRead, Some(a + t + b)) <==> t == "OK"
    ensures SetOutcomeOf(Reply(bytesRead, Some(a + t + b))) == Confirmed <==> HasPrefix(t, "OK")
  {
    TrimPadded(a, t, b);
  }

  /** A live status reply would also confirm a `SET`. */
  lemma StatusImpliesConfirmed(bytesRead: int, decoded: Option<string>)
    requires StatusAccepted(bytesRead, decoded)
    ensures SetOutcomeOf(Reply(bytesRead, decoded)) == Confirmed
  {
    assert Reply(bytesRead, decoded) == Some("OK");
    assert HasPrefix("OK", "OK");
  }

  /**
   * The `SET` command has exactly the fields `SET`, the interface and `1280`
   * after splitting on ':' when the interface name is non-empty and free of ':'.
   * Only then does it read as the three-field form.
   */
  lemma SetCommandFields(iface: string)
    ensures Split(SetCommand(iface), ':') == ["SET", iface, "1280"] <==> iface != [] && ':' !in iface
  {
    if iface != [] && ':' !in iface {
      var fields := ["SET", iface, "1280"];
      assert Join(fields, ':') == SetCommand(iface) by {
        assert Join(fields[2..], ':') == "1280";
        assert Join(fields[1..], ':') == iface + [':'] + "1280";
      }
      SplitJoin(fields, ':');
      assert Split(SetCommand(iface), ':') == fields;
    } else {
      var pieces := Split(SetCommand(iface), ':');
      if |pieces| == 3 {
        assert pieces[1] != [] && ':' !in pieces[1];
      }
    }
  }

  /** The two fixed requests: `STATUS` is framed like any command, and each is one line. */
  lemma FixedRequests()
    ensures StatusRequest == Frame("STATUS")
    ensures Split(StatusRequest, '\n') == ["STATUS"]
    ensures Split(Frame(ListCommand), '\n') == [ListCommand]
  {
    FrameIsOneLine("STATUS");
    FrameIsOneLine(ListCommand);
  }

  /** A framed command without newlines is one line to the reader. */
  lemma FrameIsOneLine(command: string)
    requires command != [] && '\n' !in command
    ensures Split(Frame(command), '\n') == [command]
  {
    SplitRun(command, "\n", '\n');
    SplitSkipsSeparator([], '\n');
    assert [command] + [] == [command];
  }

  // ---------------------------------------------------------------------------
  // The LIST reply
  // ---------------------------------------------------------------------------

  /** One `LIST` line: (name, mtu) when it splits on ':' into exactly two pieces. */
  function LineEntry(line: string): (r: Option<(string, string)>)
    ensures r.Some? <==> |Split(line, ':')| == 2
    ensures r.Some? ==> Split(line, ':') == [r.value.0, r.value.1]
  {
    var parts := Split(line, ':');
    if |parts| == 2 then Some((parts[0], parts[1])) else None
  }

  /** A field of a parsed entry: non-empty and without ':'. */
  ghost predicate ProperField(f: string)
  {
    f != [] && ':' !in f
  }

  /** The `compactMap` over the lines: drop the lines that are not entries. */
  function KeepEntries(lines: seq<string>): (out: seq<(string, string)>)
    ensures |out| <= |lines|
    ensures forall k :: 0 <= k < |out| ==> ProperField(out[k].0) && ProperField(out[k].1)
  {
    if lines == [] then []
    else
      match LineEntry(lines[0])
      case Some(e) => [e] + KeepEntries(lines[1..])
      case None => KeepEntries(lines[1..])
  }

  /** The interfaces `updateInterfacesList` reads from a `LIST` reply. */
  function ParseList(response: string): seq<(string, string)>
  {
    KeepEntries(Split(response, '\n'))
  }

  /** An interface is listed exactly when one non-empty line of the reply splits on ':' into its name and MTU. */
  lemma ParseListMembers(response: string, e: (string, string))
    ensures e in ParseList(response) <==> exists line :: line in Split(response, '\n') && Split(line, ':') == [e.0, e.1]
  {
    var lines := Split(response, '\n');
    KeepEntriesMembers(lines, e);
    if e in ParseList(response) {
      var i :| 0 <= i < |lines| && LineEntry(lines[i]) == Some(e);
      assert lines[i] in lines;
    }
    if exists line :: line in lines && Split(line, ':') == [e.0, e.1] {
      var line :| line in lines && Split(line, ':') == [e.0, e.1];
      var i :| 0 <= i < |lines| && lines[i] == line;
      assert LineEntry(lines[i]) == Some(e);
    }
  }

  /** The filter works line by line and keeps the lines' order. */
  lemma {:induction false} KeepEntriesAppend(a: seq<string>, b: seq<string>)
    ensures KeepEntries(a + b) == KeepEntries(a) + KeepEntries(b)
    decreases |a|
  {
    if a == [] {
      assert a + b == b;
    } else {
      assert (a + b)[0] == a[0] && (a + b)[1..] == a[1..] + b;
      KeepEntriesAppend(a[1..], b);
    }
  }

  /** An entry is kept exactly when some line yields it. */
  lemma {:induction false} KeepEntriesMembers(lines: seq<string>, e: (string, string))
    ensures e in KeepEntries(lines) <==> exists i :: 0 <= i < |lines| && LineEntry(lines[i]) == Some(e)
    decreases |lines|
  {
    if lines != [] {
      KeepEntriesMembers(lines[1..], e);
      if exists i :: 0 <= i < |lines[1..]| && LineEntry(lines[1..][i]) == Some(e) {
        var i :| 0 <= i < |lines[1..]| && LineEntry(lines[1..][i]) == Some(e);
        assert LineEntry(lines[i + 1]) == Some(e);
      }
      if exists i :: 0 <= i < |lines| && LineEntry(lines[i]) == Some(e) {
        var i :| 0 <= i < |lines| && LineEntry(lines[i]) == Some(e);
        if i > 0 {
          assert LineEntry(lines[1..][i - 1]) == Some(e);
        }
      }
    }
  }

  /**
   * Every parsed name and MTU is non-empty and free of ':' and newlines.
   * There are at most as many entries as non-empty lines.
   */
  lemma ParseListFields(response: string)
    ensures |ParseList(response)| <= |Split(response, '\n')|
    ensures forall k :: 0 <= k < |ParseList(response)| ==>
      ProperField(ParseList(response)[k].0) && '\n' !in ParseList(response)[k].0 &&
      ProperField(ParseList(response)[k].1) && '\n' !in ParseList(response)[k].1
  {
    var lines := Split(response, '\n');
    var out := ParseList(response);
    forall k | 0 <= k < |out|
      ensures '\n' !in out[k].0 && '\n' !in out[k].1
    {
      KeepEntriesMembers(lines, out[k]);
      var i :| 0 <= i < |lines| && LineEntry(lines[i]) == Some(out[k]);
      SplitExcludes(lines[i], ':', '\n');
    }
  }

  /** A run of separators, possibly empty, in front of the rest is dropped. */
  lemma {:induction false} SplitSkipsSeparators(gap: string, rest: string, sep: char)
    requires forall i :: 0 <= i < |gap| ==> gap[i] == sep
    ensures Split(gap + rest, sep) == Split(rest, sep)
    decreases |gap|
  {
    if gap == [] {
      assert gap + rest == rest;
    } else {
      assert gap + rest == [sep] + (gap[1..] + rest);
      SplitSkipsSeparator(gap[1..] + rest, sep);
      SplitSkipsSeparators(gap[1..], rest, sep);
    }
  }

  ghost predicate AllColons(s: string)
  {
    forall i :: 0 <= i < |s| ==> s[i] == ':'
  }

  /**
   * A line is an entry whatever the runs of ':' around and between its two
   * fields, as long as the fields are separated: "en0:1500", "en0::1500" and
   * ":en0:1500:" all give ("en0", "1500").
   */
  lemma LineEntryPadded(a: string, name: string, b: string, mtu: string, c: string)
    requires AllColons(a) && AllColons(b) && AllColons(c) && b != []
    requires ProperField(name) && ProperField(mtu)
    ensures LineEntry(a + name + b + mtu + c) == Some((name, mtu))
  {
    var tail := mtu + c;
    assert Split(tail, ':') == [mtu] by {
      assert c == [] || c[0] == ':';
      SplitRun(mtu, c, ':');
      SplitSkipsSeparators(c, [], ':');
      assert c + [] == c;
    }
    var mid := b + tail;
    assert Split(mid, ':') == [mtu] by {
      SplitSkipsSeparators(b, tail, ':');
    }
    var named := name + mid;
    assert Split(named, ':') == [name, mtu] by {
      SplitRun(name, mid, ':');
    }
    assert Split(a + named, ':') == [name, mtu] by {
      SplitSkipsSeparators(a, named, ':');
    }
    assert a + name + b + mtu + c == a + named;
  }

  /** The reply layout the parser is written for: one `name:mtu` line per interface, newline-joined, with a final newline. */
  function RenderList(entries: seq<(string, string)>): string
  {
    Join(EntryLines(entries), '\n') + "\n"
  }

  function EntryLines(entries: seq<(string, string)>): (lines: seq<string>)
    ensures |lines| == |entries|
  {
    seq(|entries|, k requires 0 <= k < |entries| => entries[k].0 + ":" + entries[k].1)
  }

  /** Fields a `LIST` reply can carry through the parser unchanged. */
  ghost predicate Listable(entries: seq<(string, string)>)
  {
    forall k :: 0 <= k < |entries| ==>
      ProperField(entries[k].0) && '\n' !in entries[k].0 &&
      ProperField(entries[k].1) && '\n' !in entries[k].1
  }

  lemma {:induction false} JoinFirst(pieces: seq<string>, sep: char)
    requires |pieces| > 0 && pieces[0] != []
    ensures Join(pieces, sep) != [] && Join(pieces, sep)[0] == pieces[0][0]
  {
  }

  lemma {:induction false} JoinLast(pieces: seq<string>, sep: char)
    requires |pieces| > 0 && pieces[|pieces| - 1] != []
    ensures var j := Join(pieces, sep); j != [] && j[|j| - 1] == pieces[|pieces| - 1][|pieces[|pieces| - 1]| - 1]
    decreases |pieces|
  {
    if |pieces| > 1 {
      JoinLast(pieces[1..], sep);
    }
  }

  lemma {:induction false} KeepEntriesOfLines(entries: seq<(string, string)>)
    requires Listable(entries)
    ensures KeepEntries(EntryLines(entries)) == entries
    decreases |entries|
  {
    if entries != [] {
      var lines := EntryLines(entries);
      var e := entries[0];
      assert Join([e.0, e.1], ':') == lines[0];
      SplitJoin([e.0, e.1], ':');
      assert lines[1..] == EntryLines(entries[1..]);
      KeepEntriesOfLines(entries[1..]);
      assert [e] + entries[1..] == entries;
    }
  }

  /**
   * Parsing undoes the layout. Take interfaces whose names and MTUs are
   * non-empty and free of ':' and newlines. Suppose the reply does not begin
   * or end in whitespace once its final newline is ignored. Then the client
   * reads back exactly those interfaces, in order.
   */
  lemma ParseRenderedList(entries: seq<(string, string)>, bytesRead: int)
    requires bytesRead > 0 && Listable(entries)
    requires entries != [] ==> !IsSpace(entries[0].0[0]) && !IsSpace(Last(entries[|entries| - 1].1))
    ensures Reply(bytesRead, Some(RenderList(entries))) == Some(Join(EntryLines(entries), '\n'))
    ensures ParseList(Join(EntryLines(entries), '\n')) == entries
  {
    var lines := EntryLines(entries);
    var body := Join(lines, '\n');
    forall k | 0 <= k < |lines|
      ensures lines[k] != [] && '\n' !in lines[k]
    {
      assert lines[k] == entries[k].0 + ":" + entries[k].1;
    }
    if entries != [] {
      var n := |entries| - 1;
      assert lines[0][0] == entries[0].0[0];
      assert lines[n][|lines[n]| - 1] == Last(entries[n].1);
      JoinFirst(lines, '\n');
      JoinLast(lines, '\n');
    }
    assert AllSpace("\n");
    assert body + "\n" == [] + body + "\n";
    TrimPadded([], body, "\n");
    SplitJoin(lines, '\n');
    KeepEntriesOfLines(entries);
  }

  function Last(s: string): char
    requires s != []
  {
    s[|s| - 1]
  }

  // ---------------------------------------------------------------------------
  // The menu
  // ---------------------------------------------------------------------------

  /** The stored VPN interface, or the default when none is stored. */
  function VpnName(stored: Option<string>): (vpn: string)
    ensures stored.None? ==> vpn == DefaultVpn
    ensures stored.Some? ==> vpn == stored.value
  {
    stored.GetOr(DefaultVpn)
  }

  /** The marker added to an interface's title: " ✓" exactly for the VPN interface. */
  function VpnMarker(name: string, stored: Option<string>): (m: string)
    ensures m == VpnMarkerText <==> name == VpnName(stored)
    ensures m == [] <==> name != VpnName(stored)
  {
    if name == VpnName(stored) then VpnMarkerText else ""
  }

  /**
   * A menu entry: its tag, its title, its right-hand detail and its
   * represented object. An interface item is a bare item whose content is a
   * custom view with two labels. For those items `title` stands for the left
   * label (name and marker) and `detail` for the right label (`<mtu> MTU`).
   */
  datatype MenuItem = MenuItem(tag: int, title: string, detail: string, represented: Option<string>)

  /** The menu `setupMenu` builds; separators and "Quit" keep the default tag 0. */
  const InitialItems: seq<MenuItem> := [
    MenuItem(StatusTag, "Status: Checking...", "", None),
    MenuItem(0, "", "", None),
    MenuItem(InterfacesTag, "Interfaces", "", None),
    MenuItem(0, "", "", None),
    MenuItem(0, "Quit", "", None)
  ]

  /**
   * In the initial menu the status item comes first and the "Interfaces"
   * header third, so a refresh inserts from index 3 on. No item is an
   * interface item.
   */
  lemma InitialLayout()
    ensures |InitialItems| == 5
    ensures FirstIndexOfTag(InitialItems, StatusTag) == Some(0)
    ensures FirstIndexOfTag(InitialItems, InterfacesTag) == Some(2)
    ensures forall j :: 0 <= j < |InitialItems| ==> !IsInterfaceTag(InitialItems[j].tag)
  {
    assert InitialItems[1..][1..][0].tag == InterfacesTag;
  }

  predicate IsInterfaceTag(tag: int)
  {
    FirstInterfaceTag <= tag < InterfaceTagEnd
  }

  /** Swift's `firstIndex(where: { $0.tag == tag })`. */
  function FirstIndexOfTag(items: seq<MenuItem>, tag: int): (r: Option<nat>)
    ensures r.Some? ==> r.value < |items| && items[r.value].tag == tag
    ensures r.Some? ==> forall j :: 0 <= j < r.value ==> items[j].tag != tag
    ensures r.None? ==> forall j :: 0 <= j < |items| ==> items[j].tag != tag
  {
    if items == [] then None
    else if items[0].tag == tag then Some(0)
    else match FirstIndexOfTag(items[1..], tag)
      case None => None
      case Some(k) => Some(k + 1)
  }

  /** The item for the `index`-th parsed interface. */
  function InterfaceItem(entry: (string, string), index: nat, stored: Option<string>): (m: MenuItem)
    ensures m.tag == FirstInterfaceTag + index && m.represented == Some(entry.0)
    ensures m.title == entry.0 + (if entry.0 == VpnName(stored) then VpnMarkerText else "")
    ensures m.detail == entry.1 + " MTU"
  {
    MenuItem(FirstInterfaceTag + index, entry.0 + VpnMarker(entry.0, stored), entry.1 + " MTU", Some(entry.0))
  }

  function InterfaceItems(entries: seq<(string, string)>, stored: Option<string>): (r: seq<MenuItem>)
    ensures |r| == |entries|
  {
    seq(|entries|, k requires 0 <= k < |entries| => InterfaceItem(entries[k], k, stored))
  }

  /** `clearInterfacesList`'s `removeAll`: drop every item tagged 300..399. */
  function Cleared(items: seq<MenuItem>): (r: seq<MenuItem>)
    ensures |r| <= |items|
    ensures forall k :: 0 <= k < |r| ==> !IsInterfaceTag(r[k].tag)
  {
    if items == [] then []
    else if IsInterfaceTag(items[0].tag) then Cleared(items[1..])
    else [items[0]] + Cleared(items[1..])
  }

  /** The menu after `updateInterfacesList` with the given `LIST` reply. */
  function Refreshed(items: seq<MenuItem>, reply: Option<string>, stored: Option<string>): seq<MenuItem>
  {
    var base := Cleared(items);
    if reply.None? then base
    else
      match FirstIndexOfTag(base, InterfacesTag)
      case None => base
      case Some(k) => base[..k + 1] + InterfaceItems(ParseList(reply.value), stored) + base[k + 1..]
  }

  /** The status item's title. */
  function StatusTitle(running: bool): (t: string)
    ensures t == "Status: Running" <==> running
    ensures t == "Status: Not Running" <==> !running
  {
    if running then "Status: Running" else "Status: Not Running"
  }

  /** The status line retitled: the first item tagged 100, if there is one, gets `title`. */
  function Retitled(items: seq<MenuItem>, title: string): (r: seq<MenuItem>)
    ensures |r| == |items|
    ensures forall j :: 0 <= j < |items| ==> r[j].tag == items[j].tag
    ensures var found := FirstIndexOfTag(items, StatusTag);
      && (found.Some? ==> r[found.value] == items[found.value].(title := title))
      && forall j :: 0 <= j < |items| && found != Some(j) ==> r[j] == items[j]
  {
    match FirstIndexOfTag(items, StatusTag)
    case None => items
    case Some(k) => items[k := items[k].(title := title)]
  }

  lemma {:induction false} ClearedAppend(a: seq<MenuItem>, b: seq<MenuItem>)
    ensures Cleared(a + b) == Cleared(a) + Cleared(b)
    decreases |a|
  {
    if a == [] {
      assert a + b == b;
    } else {
      assert (a + b)[0] == a[0] && (a + b)[1..] == a[1..] + b;
      ClearedAppend(a[1..], b);
    }
  }

  /** Clearing keeps exactly the items whose tag is outside 300..399. */
  lemma {:induction false} ClearedMembers(items: seq<MenuItem>, x: MenuItem)
    ensures x in Cleared(items) <==> x in items && !IsInterfaceTag(x.tag)
    decreases |items|
  {
    if items != [] {
      ClearedMembers(items[1..], x);
      assert items == [items[0]] + items[1..];
    }
  }

  /** Items outside the interface range are left as they are, in order. */
  lemma {:induction false} ClearedKeeps(items: seq<MenuItem>)
    requires NoInterfaceItems(items)
    ensures Cleared(items) == items
    decreases |items|
  {
    if items != [] {
      ClearedKeeps(items[1..]);
      assert [items[0]] + items[1..] == items;
    }
  }

  /** Items all in the interface range disappear. */
  lemma {:induction false} ClearedDrops(items: seq<MenuItem>)
    requires forall k :: 0 <= k < |items| ==> IsInterfaceTag(items[k].tag)
    ensures Cleared(items) == []
    decreases |items|
  {
    if items != [] {
      ClearedDrops(items[1..]);
    }
  }

  /** The fixed items of the initial menu (tags 100, 0, 200, 0, 0) survive clearing. */
  lemma ClearedInitial()
    ensures Cleared(InitialItems) == InitialItems
  {
    ClearedKeeps(InitialItems);
  }

  /**
   * The layout after a refresh. The i-th parsed interface sits just after the
   * "Interfaces" header at offset 1 + i. It is tagged 300 + i, it represents
   * its name, and it carries the VPN marker exactly for the VPN interface.
   * The items before and after the new ones are the cleared menu's.
   */
  lemma RefreshLayout(items: seq<MenuItem>, response: string, stored: Option<string>, k: nat)
    requires FirstIndexOfTag(Cleared(items), InterfacesTag) == Some(k)
    ensures SplicedAt(Refreshed(items, Some(response), stored), Cleared(items), k + 1, ParseList(response), stored)
  {
    RefreshedSplice(items, response, stored, k);
    SpliceLayout(Refreshed(items, Some(response), stored), Cleared(items), k + 1, ParseList(response), stored);
  }

  /**
   * `r` is `base` with the items for `entries` inserted at `at`: the i-th one
   * sits at `at + i`, is tagged 300 + i, represents its interface's name and
   * carries the VPN marker exactly when that name is the VPN's.
   */
  ghost predicate SplicedAt(r: seq<MenuItem>, base: seq<MenuItem>, at: nat, entries: seq<(string, string)>, stored: Option<string>)
    requires at <= |base|
  {
    && |r| == |base| + |entries|
    && r[..at] == base[..at]
    && r[at + |entries|..] == base[at..]
    && forall i :: 0 <= i < |entries| ==> r[at + i] == InterfaceItem(entries[i], i, stored)
  }

  /** Where the parts sit when the items for `entries` are spliced into `base` at `at`. */
  lemma SpliceLayout(r: seq<MenuItem>, base: seq<MenuItem>, at: nat, entries: seq<(string, string)>, stored: Option<string>)
    requires at <= |base| && r == base[..at] + InterfaceItems(entries, stored) + base[at..]
    ensures SplicedAt(r, base, at, entries, stored)
  {
    var added := InterfaceItems(entries, stored);
    SpliceAt(base[..at], added, base[at..]);
    assert |base[..at]| == at;
    forall i | 0 <= i < |entries|
      ensures r[at + i] == InterfaceItem(entries[i], i, stored)
    {
      assert r[at + i] == added[i];
    }
  }

  /**
   * Without a `LIST` reply, or without the "Interfaces" header, a refresh only
   * clears the interface items.
   */
  lemma RefreshedWithoutList(items: seq<MenuItem>, reply: Option<string>, stored: Option<string>)
    requires reply.None? || FirstIndexOfTag(Cleared(items), InterfacesTag).None?
    ensures Refreshed(items, reply, stored) == Cleared(items)
  {
  }

  /** Inserting the next new item at `|front| + i` extends the inserted run by one. */
  lemma InsertNext<T>(front: seq<T>, added: seq<T>, back: seq<T>, i: nat)
    requires i < |added|
    ensures var cur := front + added[..i] + back;
      cur[..|front| + i] + [added[i]] + cur[|front| + i..] == front + added[..i + 1] + back
  {
    var cur := front + added[..i] + back;
    assert cur[..|front| + i] == front + added[..i];
    assert cur[|front| + i..] == back;
    assert added[..i + 1] == added[..i] + [added[i]];
  }

  /** Where the parts of a splice sit. */
  lemma SpliceAt<T>(front: seq<T>, added: seq<T>, back: seq<T>)
    ensures var r := front + added + back;
      && |r| == |front| + |added| + |back|
      && r[..|front|] == front
      && r[|front| + |added|..] == back
      && forall i :: 0 <= i < |added| ==> r[|front| + i] == added[i]
  {
  }

  /** No item of `items` is an interface item. */
  ghost predicate NoInterfaceItems(items: seq<MenuItem>)
  {
    forall j :: 0 <= j < |items| ==> !IsInterfaceTag(items[j].tag)
  }

  lemma ClearedAppend3(a: seq<MenuItem>, b: seq<MenuItem>, c: seq<MenuItem>)
    ensures Cleared(a + b + c) == Cleared(a) + Cleared(b) + Cleared(c)
  {
    ClearedAppend(a, b);
    ClearedAppend(a + b, c);
  }

  /** Clearing a splice whose outer parts clearing keeps and whose middle it drops gives back the outer parts. */
  lemma ClearSplice(front: seq<MenuItem>, added: seq<MenuItem>, back: seq<MenuItem>)
    requires Cleared(front) == front && Cleared(added) == [] && Cleared(back) == back
    ensures Cleared(front + added + back) == front + back
  {
    ClearedAppend(front, added);
    assert Cleared(front + added) == front by { assert front + [] == front; }
    ClearedAppend(front + added, back);
  }

  /** The refreshed menu is the cleared menu with the interface items spliced in after the header. */
  lemma RefreshedSplice(items: seq<MenuItem>, response: string, stored: Option<string>, k: nat)
    requires FirstIndexOfTag(Cleared(items), InterfacesTag) == Some(k)
    ensures Refreshed(items, Some(response), stored)
      == Cleared(items)[..k + 1] + InterfaceItems(ParseList(response), stored) + Cleared(items)[k + 1..]
  {
  }

  /** The first 100 interface items are tagged within 300..399. */
  lemma InterfaceItemsInRange(entries: seq<(string, string)>, stored: Option<string>)
    requires |entries| <= InterfaceTagEnd - FirstInterfaceTag
    ensures forall j :: 0 <= j < |entries| ==> IsInterfaceTag(InterfaceItems(entries, stored)[j].tag)
  {
  }

  /**
   * Clearing undoes a refresh of at most 100 interfaces. The tags 300 + i then
   * all stay below 400.
   */
  lemma ClearUndoesRefresh(items: seq<MenuItem>, reply: Option<string>, stored: Option<string>)
    requires reply.Some? ==> |ParseList(reply.value)| <= InterfaceTagEnd - FirstInterfaceTag
    ensures Cleared(Refreshed(items, reply, stored)) == Cleared(items)
  {
    var base := Cleared(items);
    ClearedKeeps(base);
    var found := FirstIndexOfTag(base, InterfacesTag);
    if reply.Some? && found.Some? {
      var entries := ParseList(reply.value);
      RefreshedSplice(items, reply.value, stored, found.value);
      InterfaceItemsInRange(entries, stored);
      ClearedSplitAt(base, found.value + 1, InterfaceItems(entries, stored));
    }
  }

  /** Interface items spliced into a menu without any are exactly what clearing removes. */
  lemma ClearedSplitAt(base: seq<MenuItem>, at: nat, added: seq<MenuItem>)
    requires at <= |base| && NoInterfaceItems(base)
    requires forall j :: 0 <= j < |added| ==> IsInterfaceTag(added[j].tag)
    ensures Cleared(base[..at] + added + base[at..]) == base
  {
    ClearedKeepsParts(base, at);
    ClearedDrops(added);
    ClearSplice(base[..at], added, base[at..]);
    assert base[..at] + base[at..] == base;
  }

  /** Both parts of a menu without interface items survive clearing. */
  lemma ClearedKeepsParts(base: seq<MenuItem>, at: nat)
    requires at <= |base| && NoInterfaceItems(base)
    ensures Cleared(base[..at]) == base[..at] && Cleared(base[at..]) == base[at..]
  {
    var front, back := base[..at], base[at..];
    forall j | 0 <= j < |front| ensures !IsInterfaceTag(front[j].tag) {
      assert front[j] == base[j];
    }
    ClearedKeeps(front);
    forall j | 0 <= j < |back| ensures !IsInterfaceTag(back[j].tag) {
      assert back[j] == base[at + j];
    }
    ClearedKeeps(back);
  }

  /**
   * With more than 100 interfaces the 101st item is tagged 400. Clearing does
   * not remove it, so it is left behind and the menu grows on every refresh.
   */
  lemma StaleItemBeyondHundred(items: seq<MenuItem>, response: string, stored: Option<string>)
    requires FirstIndexOfTag(Cleared(items), InterfacesTag).Some?
    requires |ParseList(response)| > InterfaceTagEnd - FirstInterfaceTag
    ensures InterfaceItem(ParseList(response)[100], 100, stored) in Cleared(Refreshed(items, Some(response), stored))
    ensures |Cleared(Refreshed(items, Some(response), stored))| > |Cleared(items)|
  {
    var base := Cleared(items);
    var k := FirstIndexOfTag(base, InterfacesTag).value;
    var added := InterfaceItems(ParseList(response), stored);
    var stale := added[100];
    var front, back := base[..k + 1], base[k + 1..];
    RefreshedSplice(items, response, stored, k);
    assert stale in Cleared(added) by {
      ClearedMembers(added, stale);
    }
    ClearedKeepsParts(base, k + 1);
    ClearedAppend3(front, added, back);
    assert |front| + |back| == |base|;
  }

  // ---------------------------------------------------------------------------
  // The client's state
  // ---------------------------------------------------------------------------

  /**
   * The app delegate's menu, its last status reading, and the VPN interface
   * stored in the user defaults (`None` when nothing is stored).
   */
  class StatusMenu {
    var items: seq<MenuItem>
    var daemonRunning: bool
    var storedVpn: Option<string>

    /** `setupMenu`; the daemon is not yet known to run. `stored` is what the defaults hold at launch. */
    constructor (stored: Option<string>)
      ensures items == InitialItems && !daemonRunning && storedVpn == stored
    {
      items := InitialItems;
      daemonRunning := false;
      storedVpn := stored;
    }

    /** `clearInterfacesList`. */
    method ClearInterfacesList()
      modifies this
      ensures items == Cleared(old(items))
      ensures daemonRunning == old(daemonRunning) && storedVpn == old(storedVpn)
    {
      items := Cleared(items);
    }

    /** `updateInterfacesList` given the reply `sendCommand("LIST")` returned. */
    method UpdateInterfacesList(reply: Option<string>)
      modifies this
      ensures items == Refreshed(old(items), reply, storedVpn)
      ensures daemonRunning == old(daemonRunning) && storedVpn == old(storedVpn)
    {
      if reply.None? {
        ClearInterfacesList();
        return;
      }
      ClearInterfacesList();
      var entries := ParseList(reply.value);
      var found := FirstIndexOfTag(items, InterfacesTag);
      if found.Some? {
        var k := found.value;
        ghost var base := items;
        ghost var added := InterfaceItems(entries, storedVpn);
        for i := 0 to |entries|
          invariant items == base[..k + 1] + added[..i] + base[k + 1..]
          invariant daemonRunning == old(daemonRunning) && storedVpn == old(storedVpn)
        {
          var item := InterfaceItem(entries[i], i, storedVpn);
          InsertNext(base[..k + 1], added, base[k + 1..], i);
          items := items[..k + 1 + i] + [item] + items[k + 1 + i..];
        }
        assert added[..|entries|] == added;
        RefreshedSplice(old(items), reply.value, storedVpn, k);
      }
    }

    /**
     * `setAsVPNInterface`: store the interface as the VPN, then refresh the
     * list from the next `LIST` reply so the marker moves to it.
     */
    method SetAsVpnInterface(iface: string, listReply: Option<string>)
      modifies this
      ensures storedVpn == Some(iface) && VpnName(storedVpn) == iface
      ensures items == Refreshed(old(items), listReply, Some(iface))
      ensures daemonRunning == old(daemonRunning)
    {
      storedVpn := Some(iface);
      UpdateInterfacesList(listReply);
    }

    /**
     * The confirmed branch of `setInterfaceMTU`, given the reply to the `SET`
     * command. A confirmed `SET` refreshes the list from the next `LIST`
     * reply, `listReply`. Any other outcome leaves the menu as it is.
     */
    method HandleSetReply(reply: Option<string>, listReply: Option<string>)
      returns (outcome: SetOutcome)
      modifies this
      ensures outcome == SetOutcomeOf(reply)
      ensures items == if outcome == Confirmed then Refreshed(old(items), listReply, storedVpn) else old(items)
      ensures daemonRunning == old(daemonRunning) && storedVpn == old(storedVpn)
    {
      outcome := SetOutcomeOf(reply);
      if outcome == Confirmed {
        UpdateInterfacesList(listReply);
      }
    }

    /**
     * `updateStatus` given the `STATUS` reply (bytes read and their decoding)
     * and the reply to the `LIST` command that follows when the daemon runs.
     */
    method UpdateStatus(bytesRead: int, decoded: Option<string>, listReply: Option<string>)
      modifies this
      ensures daemonRunning == StatusAccepted(bytesRead, decoded)
      ensures storedVpn == old(storedVpn)
      ensures var titled := Retitled(old(items), StatusTitle(daemonRunning));
        items == if daemonRunning then Refreshed(titled, listReply, storedVpn) else Cleared(titled)
    {
      daemonRunning := StatusAccepted(bytesRead, decoded);
      items := Retitled(items, StatusTitle(daemonRunning));
      if daemonRunning {
        UpdateInterfacesList(listReply);
      } else {
        ClearInterfacesList();
      }
    }
  }
}
