# mtuprotect, modelled in Dafny

mtuprotect keeps the MTU of a GlobalProtect VPN interface pinned on macOS.
It has two programs.

- **The daemon** (`mtuprotect.swift`) subscribes to the system configuration
  key `State:/Network/Service/gpd.pan/IPv4`. On every batch of changed keys
  that contains a key with `gpd.pan` in it, it reads the MTU of `utun4` from
  the `getifaddrs` list. When that MTU is not 1280, it runs
  `/sbin/ifconfig utun4 mtu 1280` and waits for it.
- **The menu-bar client** (`mtuwatch.swift`) talks to the daemon's control
  socket with one command per connection. It sends a newline-framed command
  and reads one reply, trimmed of whitespace.
  - `STATUS` decides whether the daemon runs: the reply must be exactly `OK`.
  - `LIST` gives `name:mtu` lines. These become menu items tagged 300 + i,
    inserted after the "Interfaces" header (tag 200). The stored VPN
    interface is marked with a check mark.
  - `SET:<iface>:1280` succeeds when the reply starts with `OK`.
  - Clearing the list removes every item tagged 300..399.

The project has four modules.

- `Wrappers` (`wrappers.dfy`): `Option`, standing in for Swift's optionals.
- `Text` (`text.dfy`): the Swift string operations both programs use, over
  `seq<char>` with one `char` per Unicode scalar. These are `contains`,
  `hasPrefix`, `split(separator:)` (which omits empty pieces),
  `trimmingCharacters(in: .whitespacesAndNewlines)` and `String(UInt32)`.
- `MtuProtect` (`mtuprotect.dfy`): the daemon.
  - `getMTU` is a method with a loop, proved against the first-match function `MtuIn`.
  - `setMTU` appends to a `ProcessLog` object, which stands for the processes launched.
  - The store callback is `OnStoreChange`.
  - An `AfterSetMtu` snapshot of the interface list stands for the effect of `ifconfig`. It is used to state idempotence.
- `MtuWatch` (`mtuwatch.dfy`): the client.
  - Reply handling and the `LIST` parser are functions.
  - The menu is a `StatusMenu` object. Its fields are the item list, the last status reading, and the VPN name stored in the user defaults. Its methods are `clearInterfacesList`, `updateInterfacesList` (a loop of in-place inserts), `updateStatus`, `setAsVPNInterface` and the confirmed path of `setInterfaceMTU`.

The boundaries with the OS are inputs:
- the batch of changed keys (`Option<seq<string>>`, where `None` is a payload that is not a string array);
- one `getifaddrs` enumeration (`Option<seq<IfAddr>>`, where `None` is a failed call);
- a socket reply (the byte count `read` returned, and the UTF-8 decoding of those bytes);
- the stored VPN name.

## Model

| member | source | states |
|---|---|---|
| MtuProtect.GetMtu | mtuprotect.swift:24-38 | `getMTU` returns the MTU of the first accepted record in list order. A record is accepted when its name matches, its family is `AF_LINK` and its data is present. The result is 0 when enumeration fails or nothing is accepted. The loop invariant keeps the first-match value of the unscanned rest. |
| MtuProtect.ObservedMtuIs | mtuprotect.swift:26-37 | `ObservedMtu` and `MtuIn`: a failed enumeration reads 0. Otherwise the reading is the MTU of the first record that `IsLinkEntryOf` accepts, or 0 when no record is accepted. |
| MtuProtect.MtuInFirstMatch | mtuprotect.swift:29-35 | When the record at index i is accepted and no earlier record is, the result is that record's `ifi_mtu`. |
| MtuProtect.MtuInNoMatch | mtuprotect.swift:37 | When no record is accepted, the result is 0. |
| MtuProtect.MtuInSkips | mtuprotect.swift:31-33 | `IsLinkEntryOf` is the three-part test of lines 31-33. Records that are not accepted do not change the result. This includes a record with the right name but another family, or one without data. |
| MtuProtect.WalkAsWrittenTraps | mtuprotect.swift:29-37 | The walk as written traps exactly when no record is accepted. When it does not trap, it agrees with `MtuIn`. |
| MtuProtect.AbsentVpnTrapsAsWritten | mtuprotect.swift:29-37 | A concrete list holding only `lo0`: the walk as written traps on it, while the intended result is 0. |
| MtuProtect.IfconfigArguments | mtuprotect.swift:43 | The argument vector has three parts: the interface, `mtu`, and a decimal numeral that parses back to the MTU. |
| MtuProtect.PinningLaunch | mtuprotect.swift:6-7 | The pinning launch is exactly `/sbin/ifconfig` with `utun4 mtu 1280`. |
| MtuProtect.ProcessLog.Run | mtuprotect.swift:41-45 | A launch and wait appends one record with the path and the arguments. Nothing else changes. |
| MtuProtect.IfconfigLaunch | mtuprotect.swift:42-43 | The launch runs `/sbin/ifconfig` with the interface, `mtu`, and a numeral that parses back to the MTU. |
| MtuProtect.SetMtu | mtuprotect.swift:40-46 | `setMTU` causes exactly one ifconfig launch, with the argument vector above. |
| MtuProtect.OnStoreChange | mtuprotect.swift:11-18 | The MTU is read exactly when the batch is a string array and some key contains `gpd.pan`. The reading is `getMTU`'s. The launches are one pinning launch when the reading differs from 1280, and none otherwise. |
| MtuProtect.RelevantIff | mtuprotect.swift:12 | `Relevant`: the batch is a string array and `gpd.pan` occurs somewhere in one of its keys. |
| MtuProtect.ReactionIsPinningOrNothing | mtuprotect.swift:13-17 | `Reaction`: a notification causes either no launch or the single pinning launch. It launches exactly when it is relevant and the reading is not 1280. |
| MtuProtect.WatchedKeyIsRelevant | mtuprotect.swift:11-20 | The subscribed key passes the callback's own `gpd.pan` filter. |
| MtuProtect.WatchedKeyReaction | mtuprotect.swift:11-20 | A notification for the subscribed key launches once when the MTU is off and never when it is 1280. |
| MtuProtect.AfterSetMtu | mtuprotect.swift:40-46 | The snapshot after ifconfig keeps the records and makes the same records accepted. |
| MtuProtect.MtuAfterSet | mtuprotect.swift:13-16 | After the MTU of a present interface has been set, `getMTU` reads the new value. |
| MtuProtect.ReactionSettles | mtuprotect.swift:13-17 | Idempotence. After the change has taken effect, no later notification launches anything. A notification that launches, followed by any later one, makes exactly one launch in total. |
| MtuProtect.AbsentVpnRetries | mtuprotect.swift:13-17 | With no accepted VPN record, the reading is 0. Every relevant notification then launches again, even after an ifconfig run. |
| Text.HasInfixIff | mtuprotect.swift:12 | `contains` holds exactly when the substring occurs at some position. |
| Text.HasPrefixIff | mtuwatch.swift:349 | `hasPrefix` holds exactly when the text is the prefix followed by something. |
| Text.SplitJoin | mtuwatch.swift:239-240 | Splitting undoes joining for non-empty pieces that are free of the separator. |
| Text.SplitExcludes | mtuwatch.swift:240 | A character absent from the input is absent from every piece. |
| Text.Split | mtuwatch.swift:239-240 | The pieces are non-empty and free of the separator. There are at most as many pieces as characters. |
| Text.TrimPadded | mtuwatch.swift:183 | Trimming removes whitespace and newlines on both sides and nothing else. |
| Text.TrimShape | mtuwatch.swift:223 | The trimmed text is a contiguous piece of the input, with only whitespace and newlines around it. |
| Text.Trim | mtuwatch.swift:223 | The result starts and ends with a non-whitespace character, or is empty. |
| Text.DecimalRoundTrip | mtuprotect.swift:43 | Parsing the decimal rendering of n gives back n. |
| Text.Decimal | mtuprotect.swift:43 | The rendering is non-empty and all digits. It has a leading 0 exactly for 0. |
| MtuWatch.Frame | mtuwatch.swift:213 | A request is the command followed by exactly one newline. |
| MtuWatch.FrameIsOneLine | mtuwatch.swift:213 | A framed command without newlines reads as a single line. |
| MtuWatch.Reply | mtuwatch.swift:219-226 | `sendCommand` gives a reply exactly when bytes were read and they decode. The reply is the decoded text trimmed, so it has no surrounding whitespace. |
| MtuWatch.ReplyPadded | mtuwatch.swift:223 | A reply whose text is t with whitespace and newlines around it comes back as exactly t. |
| MtuWatch.FixedRequests | mtuwatch.swift:173 | `STATUS\n` is the framed `STATUS` command, and both `STATUS` and `LIST` requests are one line each. |
| MtuWatch.StatusAcceptedIff | mtuwatch.swift:179-187 | `StatusAccepted`: the status check holds exactly when bytes were read, they decode, and they are `OK` with only whitespace around it. |
| MtuWatch.SetOutcomeOf | mtuwatch.swift:347-363 | There is no outcome without a reply. A reply that starts with `OK` is confirmed. Any other reply is refused and carries the reply text. |
| MtuWatch.SetOutcomeOfPadded | mtuwatch.swift:348-349 | A padded reply whose text is t confirms a `SET` exactly when t starts with `OK`. |
| MtuWatch.StatusStricterThanSet | mtuwatch.swift:184 | Take a padded reply whose text is t. The status check wants t to be exactly `OK`. A `SET` is confirmed by any t that starts with `OK`. |
| MtuWatch.StatusImpliesConfirmed | mtuwatch.swift:184 | A live status reply would also confirm a `SET`. |
| MtuWatch.SetCommandFields | mtuwatch.swift:348 | `SetCommand`: `SET:<iface>:1280` splits on ':' into its three fields exactly when the interface name is non-empty and free of ':'. |
| MtuWatch.LineEntry | mtuwatch.swift:240-242 | A line gives an entry exactly when it splits on ':' into two pieces, and the entry is those two pieces. |
| MtuWatch.ParseListMembers | mtuwatch.swift:239-243 | `ParseList`: an interface is listed exactly when some non-empty line of the reply splits on ':' into its name and MTU. |
| MtuWatch.KeepEntries | mtuwatch.swift:239-243 | The kept entries are no more than the lines, and every field is non-empty and free of ':'. |
| MtuWatch.KeepEntriesAppend | mtuwatch.swift:239-243 | The filter works line by line and keeps the lines' order. |
| MtuWatch.KeepEntriesMembers | mtuwatch.swift:240-242 | An entry is kept exactly when some line splits on ':' into exactly that pair. |
| MtuWatch.ParseListFields | mtuwatch.swift:239-243 | Every parsed name and MTU is non-empty and free of ':' and newlines. There are at most as many entries as non-empty lines. |
| MtuWatch.LineEntryPadded | mtuwatch.swift:240-242 | Runs of ':' around and between the two fields do not change the parsed pair. |
| MtuWatch.ParseRenderedList | mtuwatch.swift:223-243 | A reply laid out as `name:mtu` lines with a final newline is trimmed to the joined lines. It parses back to exactly those interfaces, in order. |
| MtuWatch.VpnName | mtuwatch.swift:238 | The VPN is the stored name when one is stored, and `utun4` otherwise. |
| MtuWatch.VpnMarker | mtuwatch.swift:248-249 | The marker is ` ✓` exactly for the VPN interface, and empty for every other one. |
| MtuWatch.FirstIndexOfTag | mtuwatch.swift:246 | This is `firstIndex(where:)`. When found, the index holds the tag and no earlier item does. When not found, no item holds it. |
| MtuWatch.InterfaceItem | mtuwatch.swift:247-284 | The i-th item is tagged 300 + i and represents the interface name. Its left label (`title`) is the name plus the VPN marker, and its right label (`detail`) is `<mtu> MTU`. |
| MtuWatch.Cleared | mtuwatch.swift:308-310 | No item tagged 300..399 is left, and the list gets no longer. |
| MtuWatch.ClearedMembers | mtuwatch.swift:309 | An item survives clearing exactly when it was present and its tag is outside 300..399. |
| MtuWatch.ClearedAppend | mtuwatch.swift:309 | Clearing works item by item and keeps the remaining items' order. |
| MtuWatch.ClearedKeeps | mtuwatch.swift:309 | Clearing a list without interface items changes nothing. |
| MtuWatch.InitialLayout | mtuwatch.swift:106-125 | `InitialItems`: five items, the status item (tag 100) first and the "Interfaces" header (tag 200) third, and no interface items. |
| MtuWatch.ClearedInitial | mtuwatch.swift:106-125 | The fixed items of the initial menu survive clearing. |
| MtuWatch.RefreshLayout | mtuwatch.swift:246-305 | After a refresh, the cleared menu is kept before and after the insertion point just past the "Interfaces" header. The i-th parsed interface sits at header + 1 + i, as the item described for `InterfaceItem`. |
| MtuWatch.RefreshedWithoutList | mtuwatch.swift:229-233 | `Refreshed`: without a `LIST` reply, or without the header, a refresh only clears the interface items. |
| MtuWatch.SpliceLayout | mtuwatch.swift:303 | Inserting the items for the entries at one position puts the i-th at that position + i and leaves both sides as they were. |
| MtuWatch.ClearUndoesRefresh | mtuwatch.swift:229-310 | With at most 100 interfaces, clearing after a refresh gives the cleared menu from before it. |
| MtuWatch.StaleItemBeyondHundred | mtuwatch.swift:253-309 | With more than 100 interfaces, the 101st item (tag 400) survives clearing. The cleared menu grows with every refresh. |
| MtuWatch.Retitled | mtuwatch.swift:138-140 | Only the first item tagged 100 gets the new title. Every other item, and every tag, is unchanged. |
| MtuWatch.StatusTitle | mtuwatch.swift:139 | The status line reads `Status: Running` exactly when the daemon runs, and `Status: Not Running` exactly when it does not. |
| MtuWatch.StatusMenu.constructor | mtuwatch.swift:106-125 | `setupMenu` gives five items: status (100), separator, "Interfaces" (200), separator, "Quit". The daemon is not yet known to run. |
| MtuWatch.StatusMenu.ClearInterfacesList | mtuwatch.swift:308-310 | The items become the cleared items. The status reading and the stored VPN are unchanged. |
| MtuWatch.StatusMenu.UpdateInterfacesList | mtuwatch.swift:229-306 | Without a reply, the list is only cleared. With a reply, one item per parsed interface is inserted after the header, by a loop of in-place inserts that ends in `Refreshed`. |
| MtuWatch.StatusMenu.SetAsVpnInterface | mtuwatch.swift:326-337 | The stored VPN becomes the interface, and the list is refreshed with the marker on it. |
| MtuWatch.StatusMenu.HandleSetReply | mtuwatch.swift:347-363 | Only a confirmed `SET` refreshes the list. A refused `SET` or a missing reply leaves the menu as it was. |
| MtuWatch.StatusMenu.UpdateStatus | mtuwatch.swift:133-148 | The reading is the status check. The status line is retitled. When the daemon runs the list is refreshed, and otherwise it is cleared. |

## Findings

| source | as written | input that shows it | evidently intended | confidence | as-written member | corrected member |
|---|---|---|---|---|---|---|
| mtuprotect.swift:29-37 | `sequence(first: ifaddr, next: { $0?.pointee.ifa_next })` has an optional element type: each element is the optional `ifaddrs` reference itself. So after the last record the walk yields a nil element rather than ending. The body force-unwraps `ptr!` and traps on it. An empty list traps on its first element. | An enumeration in which no record is `utun4` with `AF_LINK` and data, e.g. only `lo0`. This is the state while the VPN is down. | Return 0 when nothing matches, as line 37 does. | medium (depends on Swift's type inference for the closure); not executed | MtuProtect.WalkAsWrittenTraps, MtuProtect.AbsentVpnTrapsAsWritten | MtuProtect.GetMtu, MtuProtect.MtuInNoMatch |

The rest of the model uses the corrected scan. `OnStoreChange` reads 0 for a missing VPN interface and launches ifconfig, as `AbsentVpnRetries` states.

An observation that is not a finding: item tags are `300 + index` with no upper bound, while clearing removes only 300..399. With more than 100 interfaces, items from the 101st on are never removed (`StaleItemBeyondHundred`). Nothing in the source says whether a bound of 100 interfaces is intended, so this is stated as a property of the code as written and not corrected.

## Left out

- AppKit presentation: the status-item button glyphs, the custom item views, their layout and hover drawing, fonts and colours, and every `NSAlert`. Of an interface item's custom view only its two labels are kept, as the item's `title` (left label) and `detail` (right label). The alert in `setInterfaceMTU` is not modelled. `HandleSetReply` starts after the user chose "Set to 1280".
- The 2-second timer that calls `updateStatus` repeatedly. Each tick is one `UpdateStatus` call.
- Socket plumbing: `socket`, `connect`, `write`, `read`, the buffer sizes (1024 and 4096 bytes) and the socket path. A reply is the byte count plus an already decoded string. UTF-8 decoding itself is an input.
- The configuration-store subscription, the run-loop source and `exit(1)` on setup failure. The callback is modelled on the key batch it receives.
- `getifaddrs`/`freeifaddrs` and the linked-list walk are modelled on a sequence of records. `Process` launch and wait become an entry in `ProcessLog`, and the exit status is ignored, as in the source.
- The log lines the daemon prints.
- Swift `String` compares and splits by grapheme cluster under canonical equivalence. The model works on Unicode scalars: `"\r\n"` is one `Character` in Swift but two `char`s here, and no normalisation is applied.
- `handleInterfaceClickForName` / `handleInterfaceClick` read the modifier keys and the item's represented object to choose between `setAsVPNInterface` and `setInterfaceMTU`. The two targets are modelled; the dispatch on the keyboard state is not.
- The `defaults` store is a field, `storedVpn`, of the menu object. Its persistence across launches is not modelled.
- The daemon's command server and the login-session app launcher are not part of this model: neither appears in `mtuprotect.swift`. The daemon's callback sets the MTU only, and the model follows that code.
- MtuProtect.AfterSetMtu: it assumes that ifconfig succeeds and changes every accepted record of the interface. A failed ifconfig run is not modelled.
- Menu tags are unbounded integers. Swift's `Int` cannot overflow at menu sizes.
