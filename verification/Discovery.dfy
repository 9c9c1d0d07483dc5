/** Finding input devices (discover in evdev.go) and who owns their descriptors while
    devices come and go. */
module Discovery {
  import opened Slices
  import opened Kvm
  import opened KvmDevices

  /** An event node as the scan sees it: whether it opens, its name, and the key of its
      physical USB device ("" when it has none). */
  datatype Node = Node(path: string, opens: bool, name: string, key: string)

  datatype Found = NoneFound | Found(devs: seq<Node>)

  /** A node that opens and is named in the configuration. */
  predicate Named(n: Node, wanted: set<string>) {
    n.opens && n.name in wanted
  }

  /** Named in the configuration, or a sibling of a named node on the same USB device. */
  predicate Kept(n: Node, nodes: seq<Node>, wanted: set<string>) {
    n.opens &&
    (n.name in wanted || (n.key != "" && exists i :: 0 <= i < |nodes| && Named(nodes[i], wanted) && nodes[i].key == n.key))
  }

  function Select(ns: seq<Node>, nodes: seq<Node>, wanted: set<string>): seq<Node> {
    if ns == [] then []
    else Select(ns[..|ns| - 1], nodes, wanted)
         + if Kept(ns[|ns| - 1], nodes, wanted) then [ns[|ns| - 1]] else []
  }

  function Opened(ns: seq<Node>): seq<Node> {
    if ns == [] then []
    else Opened(ns[..|ns| - 1]) + if ns[|ns| - 1].opens then [ns[|ns| - 1]] else []
  }

  predicate Refused(n: Node, nodes: seq<Node>, wanted: set<string>) {
    n.opens && !Kept(n, nodes, wanted)
  }

  function Rejected(ns: seq<Node>, nodes: seq<Node>, wanted: set<string>): seq<Node> {
    if ns == [] then []
    else Rejected(ns[..|ns| - 1], nodes, wanted)
         + if Refused(ns[|ns| - 1], nodes, wanted) then [ns[|ns| - 1]] else []
  }

  /** The keys of the physical devices with a named node. */
  function WantedKeys(ns: seq<Node>, wanted: set<string>): set<string> {
    if ns == [] then {}
    else
      var last := ns[|ns| - 1];
      WantedKeys(ns[..|ns| - 1], wanted) + if last.key != "" && last.name in wanted then {last.key} else {}
  }

  /** discover over the sorted listing, in three passes. Returns the devices kept; `closed`
      are the nodes it opened and closed again, each as often as it was opened. */
  method Discover(nodes: seq<Node>, wanted: set<string>) returns (r: Found, closed: seq<Node>)
    ensures r == if Select(nodes, nodes, wanted) == [] then NoneFound else Found(Select(nodes, nodes, wanted))
    ensures closed == Rejected(nodes, nodes, wanted)
  {
    var cands := [];
    for i := 0 to |nodes|
      invariant cands == Opened(nodes[..i])
    {
      OpenedPrefix(nodes, i);
      if nodes[i].opens { cands := cands + [nodes[i]]; }
    }
    assert nodes[..|nodes|] == nodes;

    var wantedKeys := {};
    for i := 0 to |cands|
      invariant wantedKeys == WantedKeys(cands[..i], wanted)
    {
      Prefix(cands, i);
      if cands[i].key != "" && cands[i].name in wanted {
        wantedKeys := wantedKeys + {cands[i].key};
      }
    }
    assert cands[..|cands|] == cands;

    var devs := [];
    closed := [];
    for i := 0 to |cands|
      invariant devs == Select(cands[..i], nodes, wanted)
      invariant closed == Rejected(cands[..i], nodes, wanted)
    {
      var n := cands[i];
      Prefix(cands, i);
      KeptByKey(nodes, wanted, i);
      OpenedAt(nodes, i);
      if n.name in wanted || (n.key != "" && n.key in wantedKeys) {
        devs := devs + [n];
      } else {
        closed := closed + [n];
      }
    }
    SelectOpened(nodes, nodes, wanted);
    r := if devs == [] then NoneFound else Found(devs);
  }

  /** The second pass decides as the two conditions say. */
  lemma {:induction false} KeptByKey(nodes: seq<Node>, wanted: set<string>, k: nat)
    requires k < |Opened(nodes)|
    ensures var n := Opened(nodes)[k];
            Kept(n, nodes, wanted) <==>
              n.name in wanted || (n.key != "" && n.key in WantedKeys(Opened(nodes), wanted))
  {
    var n := Opened(nodes)[k];
    assert n in Opened(nodes);
    OpenedIs(nodes);
    WantedKeysAre(Opened(nodes), wanted);
    if n.key in WantedKeys(Opened(nodes), wanted) {
      var m :| m in Opened(nodes) && m.key == n.key && m.name in wanted;
      var i :| 0 <= i < |nodes| && nodes[i] == m;
      assert Named(nodes[i], wanted);
    }
    if i :| 0 <= i < |nodes| && Named(nodes[i], wanted) && nodes[i].key == n.key && n.key != "" {
      assert nodes[i] in Opened(nodes);
    }
  }

  lemma {:induction false} WantedKeysAre(ns: seq<Node>, wanted: set<string>)
    ensures forall key :: key in WantedKeys(ns, wanted) <==>
              key != "" && exists n :: n in ns && n.key == key && n.name in wanted
  {
    if ns != [] {
      var before, last := ns[..|ns| - 1], ns[|ns| - 1];
      WantedKeysAre(before, wanted);
      assert ns == before + [last];
    }
  }

  lemma {:induction false} OpenedPrefix(ns: seq<Node>, i: nat)
    requires i < |ns|
    ensures Opened(ns[..i + 1]) == Opened(ns[..i]) + if ns[i].opens then [ns[i]] else []
  {
    Prefix(ns, i);
  }

  lemma {:induction false} Prefix(ns: seq<Node>, i: nat)
    requires i < |ns|
    ensures ns[..i + 1] == ns[..i] + [ns[i]] && ns[..i + 1][..i] == ns[..i]
  {
  }

  lemma {:induction false} OpenedAt(ns: seq<Node>, i: nat)
    requires i < |Opened(ns)|
    ensures Opened(ns)[i].opens
  {
    OpenedIs(ns);
    assert Opened(ns)[i] in Opened(ns);
  }

  lemma {:induction false} OpenedIs(ns: seq<Node>)
    ensures forall n :: n in Opened(ns) <==> n in ns && n.opens
  {
    if ns != [] {
      OpenedIs(ns[..|ns| - 1]);
      assert ns == ns[..|ns| - 1] + [ns[|ns| - 1]];
    }
  }

  /** Selecting among the opened nodes is selecting among all. */
  lemma {:induction false} SelectOpened(ns: seq<Node>, nodes: seq<Node>, wanted: set<string>)
    ensures Select(Opened(ns), nodes, wanted) == Select(ns, nodes, wanted)
    ensures Rejected(Opened(ns), nodes, wanted) == Rejected(ns, nodes, wanted)
  {
    if ns != [] {
      var before, last := ns[..|ns| - 1], ns[|ns| - 1];
      SelectOpened(before, nodes, wanted);
      if last.opens {
        assert (Opened(before) + [last])[..|Opened(before)|] == Opened(before);
      } else {
        assert Opened(before) + [] == Opened(before);
      }
    }
  }

  /** Every node that was opened is either kept or closed again, once. */
  lemma {:induction false} KeptOrClosed(ns: seq<Node>, nodes: seq<Node>, wanted: set<string>)
    ensures multiset(Select(ns, nodes, wanted)) + multiset(Rejected(ns, nodes, wanted)) == multiset(Opened(ns))
    ensures forall n :: n in Rejected(ns, nodes, wanted) <==> n in ns && Refused(n, nodes, wanted)
  {
    RejectedIs(ns, nodes, wanted);
    if ns != [] {
      KeptOrClosed(ns[..|ns| - 1], nodes, wanted);
    }
  }

  lemma {:induction false} RejectedIs(ns: seq<Node>, nodes: seq<Node>, wanted: set<string>)
    ensures forall n :: n in Rejected(ns, nodes, wanted) <==> n in ns && Refused(n, nodes, wanted)
  {
    if ns != [] {
      RejectedIs(ns[..|ns| - 1], nodes, wanted);
      assert ns == ns[..|ns| - 1] + [ns[|ns| - 1]];
    }
  }

  /** The nodes of one USB device stay together once one of them is named; a node that is not
      named stays out if it has no USB device or none of that device is named. */
  lemma {:induction false} SiblingsTogether(a: Node, b: Node, nodes: seq<Node>, wanted: set<string>)
    requires a in nodes && b in nodes && a.opens && b.opens
    ensures a.name in wanted ==> Kept(a, nodes, wanted)
    ensures a.name in wanted && a.key == b.key != "" ==> Kept(b, nodes, wanted)
    ensures b.name !in wanted && b.key == "" ==> !Kept(b, nodes, wanted)
    ensures b.name !in wanted && Kept(b, nodes, wanted) ==>
              exists n :: n in nodes && n.opens && n.name in wanted && n.key == b.key
  {
    var i :| 0 <= i < |nodes| && nodes[i] == a;
    assert a.name in wanted ==> Named(nodes[i], wanted);
    if b.name !in wanted && Kept(b, nodes, wanted) {
      var k :| 0 <= k < |nodes| && Named(nodes[k], wanted) && nodes[k].key == b.key;
      assert nodes[k] in nodes;
    }
  }

  predicate Precedes(ns: seq<Node>, a: Node, b: Node) {
    exists i, j :: 0 <= i < j < |ns| && ns[i] == a && ns[j] == b
  }

  lemma {:induction false} PrecedesAppend(before: seq<Node>, last: Node, a: Node, b: Node)
    ensures Precedes(before, a, b) ==> Precedes(before + [last], a, b)
    ensures a in before ==> Precedes(before + [last], a, last)
  {
    var ns := before + [last];
    if Precedes(before, a, b) {
      var i, j :| 0 <= i < j < |before| && before[i] == a && before[j] == b;
      assert ns[i] == a && ns[j] == b;
    }
    if a in before {
      var i :| 0 <= i < |before| && before[i] == a;
      assert ns[i] == a && ns[|before|] == last;
    }
  }

  /** Selection takes exactly the kept nodes and keeps the listing's order. */
  lemma {:induction false} SelectExact(ns: seq<Node>, nodes: seq<Node>, wanted: set<string>)
    ensures var s := Select(ns, nodes, wanted);
            && (forall n :: n in s <==> n in ns && Kept(n, nodes, wanted))
            && (forall a, b :: 0 <= a < b < |s| ==> Precedes(ns, s[a], s[b]))
  {
    if ns != [] {
      var before, last := ns[..|ns| - 1], ns[|ns| - 1];
      var s0, s := Select(before, nodes, wanted), Select(ns, nodes, wanted);
      SelectExact(before, nodes, wanted);
      assert ns == before + [last];
      forall a, b | 0 <= a < b < |s| ensures Precedes(ns, s[a], s[b]) {
        assert s[a] == s0[a];
        PrecedesAppend(before, last, s[a], s[b]);
      }
    }
  }

  // ---- Descriptors over a run ----

  /** `open` are the descriptors this process holds on event nodes, `probes` the devices the
      current poll has opened and not yet offered to the controller. */
  datatype Owner = Owner(devs: seq<Device>, open: set<nat>, probes: seq<Device>, nextFd: nat)

  datatype Move =
    | Poll(paths: seq<string>) // discover succeeded with these paths, all others closed
    | Offer                    // trackIfNew for the next probe, or close it
    | Lose(i: nat)             // deviceLost for a tracked device

  predicate Enabled(s: Owner, m: Move) {
    match m
    case Poll(paths) => s.probes == [] && forall i, j :: 0 <= i < j < |paths| ==> paths[i] != paths[j]
    case Offer => s.probes != []
    case Lose(i) => i < |s.devs|
  }

  function Probe(paths: seq<string>, fd: nat): (ds: seq<Device>)
    ensures |ds| == |paths|
    ensures forall i :: 0 <= i < |ds| ==> ds[i] == Device(paths[i], fd + i)
  {
    seq(|paths|, i requires 0 <= i < |paths| => Device(paths[i], fd + i))
  }

  function Fds(ds: seq<Device>): set<nat> {
    set i | 0 <= i < |ds| :: ds[i].fd
  }

  function Next(s: Owner, m: Move): Owner
    requires Enabled(s, m)
  {
    match m
    case Poll(paths) =>
      var ds := Probe(paths, s.nextFd);
      Owner(s.devs, s.open + Fds(ds), ds, s.nextFd + |paths|)
    case Offer =>
      var d := s.probes[0];
      if Tracks(s.devs, d.path) then s.(open := s.open - {d.fd}, probes := s.probes[1..])
      else s.(devs := s.devs + [d], probes := s.probes[1..])
    case Lose(i) =>
      s.(devs := Without(s.devs, s.devs[i]), open := s.open - {s.devs[i].fd})
  }

  predicate DistinctFds(ds: seq<Device>) {
    forall i, j :: 0 <= i < j < |ds| ==> ds[i].fd != ds[j].fd
  }

  /** Tracked paths are unique, and the open descriptors are exactly those of the tracked
      devices and of the probes still to be offered, each owned once. */
  predicate Owned(s: Owner) {
    && UniquePaths(s.devs)
    && DistinctFds(s.devs + s.probes)
    && s.open == Fds(s.devs + s.probes)
    && forall d :: d in s.devs + s.probes ==> d.fd < s.nextFd
  }

  lemma {:induction false} FdsConcat(a: seq<Device>, b: seq<Device>)
    ensures Fds(a + b) == Fds(a) + Fds(b)
  {
    forall x | x in Fds(a) + Fds(b) ensures x in Fds(a + b) {
      if x in Fds(a) {
        var i :| 0 <= i < |a| && a[i].fd == x;
        assert (a + b)[i].fd == x;
      } else {
        var i :| 0 <= i < |b| && b[i].fd == x;
        assert (a + b)[|a| + i].fd == x;
      }
    }
  }

  /** Dropping one device gives up its descriptor and no other. */
  lemma {:induction false} DropFd(all: seq<Device>, i: nat)
    requires DistinctFds(all) && i < |all|
    ensures var rest := all[..i] + all[i + 1..]; DistinctFds(rest) && Fds(rest) == Fds(all) - {all[i].fd}
  {
    var rest := all[..i] + all[i + 1..];
    forall x | x in Fds(all) - {all[i].fd} ensures x in Fds(rest) {
      var j :| 0 <= j < |all| && all[j].fd == x;
      assert rest[if j < i then j else j - 1].fd == x;
    }
    forall j | 0 <= j < |rest| ensures rest[j] == all[if j < i then j else j + 1] && rest[j].fd != all[i].fd {
    }
  }

  lemma {:induction false} PollKeeps(s: Owner, paths: seq<string>)
    requires Owned(s) && Enabled(s, Poll(paths))
    ensures Owned(Next(s, Poll(paths)))
  {
    var ds := Probe(paths, s.nextFd);
    var all := s.devs + ds;
    assert s.devs + s.probes == s.devs;
    FdsConcat(s.devs, ds);
    forall i, j | 0 <= i < j < |all| ensures all[i].fd != all[j].fd {
      if i < |s.devs| { assert s.devs[i] in s.devs; }
    }
  }

  lemma {:induction false} OfferKeeps(s: Owner)
    requires Owned(s) && s.probes != []
    ensures Owned(Next(s, Offer))
  {
    var d, rest, n := s.probes[0], s.probes[1..], |s.devs|;
    var all := s.devs + s.probes;
    if Tracks(s.devs, d.path) {
      DropFd(all, n);
      assert all[..n] + all[n + 1..] == s.devs + rest && all[n] == d;
    } else {
      assert s.devs + [d] + rest == all;
    }
  }

  /** An offered probe's path is tracked afterwards: by the probe itself, added at the end, if
      nothing was on that path, and else by what was, the probe being closed. */
  lemma {:induction false} OfferTracks(s: Owner)
    requires Owned(s) && s.probes != []
    ensures var s', d := Next(s, Offer), s.probes[0];
            && Tracks(s'.devs, d.path) && s'.probes == s.probes[1..]
            && s'.devs == (if Tracks(s.devs, d.path) then s.devs else s.devs + [d])
            && (d.fd in s'.open <==> !Tracks(s.devs, d.path))
  {
    var d := s.probes[0];
    if !Tracks(s.devs, d.path) {
      PathAfterTrack(s.devs, d, d.path);
    }
    assert (s.devs + s.probes)[|s.devs|] == d;
  }

  /** A poll opens one probe for each path it found, and tracks nothing yet. */
  lemma {:induction false} PollProbes(s: Owner, paths: seq<string>)
    requires Owned(s) && Enabled(s, Poll(paths))
    ensures var s' := Next(s, Poll(paths));
            && s'.devs == s.devs && |s'.probes| == |paths|
            && forall i :: 0 <= i < |paths| ==> s'.probes[i].path == paths[i] && s'.probes[i].fd in s'.open
  {
    var s' := Next(s, Poll(paths));
    forall i | 0 <= i < |paths| ensures s'.probes[i].path == paths[i] && s'.probes[i].fd in s'.open {
      assert s'.probes[i].fd in Fds(s'.probes);
    }
  }

  /** The rest of a poll: every probe is offered. */
  function OfferAll(s: Owner): Owner
    decreases |s.probes|
  {
    if s.probes == [] then s else OfferAll(Next(s, Offer))
  }

  predicate Among(probes: seq<Device>, path: string) {
    exists i :: 0 <= i < |probes| && probes[i].path == path
  }

  /** Over a whole poll: the devices tracked before stay, in front and in order, and after it
      exactly their paths and those that were found are tracked. */
  lemma {:induction false} PollTracksAll(s: Owner, path: string)
    requires Owned(s)
    ensures var s' := OfferAll(s);
            && s'.probes == [] && Owned(s') && s.devs <= s'.devs
            && (Tracks(s'.devs, path) <==> Tracks(s.devs, path) || Among(s.probes, path))
    decreases |s.probes|
  {
    if s.probes != [] {
      var s1 := Next(s, Offer);
      OfferKeeps(s);
      OfferTracks(s);
      PollTracksAll(s1, path);
      PathAfterTrack(s.devs, s.probes[0], path);
      AmongRest(s.probes, path);
    }
  }

  lemma {:induction false} AmongRest(probes: seq<Device>, path: string)
    requires probes != []
    ensures Among(probes, path) <==> probes[0].path == path || Among(probes[1..], path)
  {
    if i :| 0 <= i < |probes| && probes[i].path == path && i > 0 {
      assert probes[1..][i - 1] == probes[i];
    }
    if i :| 0 <= i < |probes| - 1 && probes[1..][i].path == path {
      assert probes[i + 1] == probes[1..][i];
    }
  }

  lemma {:induction false} LoseKeeps(s: Owner, i: nat)
    requires Owned(s) && i < |s.devs|
    ensures Owned(Next(s, Lose(i)))
    ensures Next(s, Lose(i)).devs == s.devs[..i] + s.devs[i + 1..]
  {
    var d, all := s.devs[i], s.devs + s.probes;
    OthersDiffer(s.devs, i);
    WithoutDropsOne(s.devs, i);
    WithoutProps(s.devs, d);
    DropFd(all, i);
    DropFirstPart(s.devs, s.probes, i);
  }

  lemma {:induction false} DropFirstPart(a: seq<Device>, b: seq<Device>, i: nat)
    requires i < |a|
    ensures var all, rest := a + b, a[..i] + a[i + 1..] + b;
            && all[i] == a[i] && all[..i] + all[i + 1..] == rest
            && forall e :: e in rest ==> e in all
  {
    var all := a + b;
    assert all[..i] == a[..i] && all[i + 1..] == a[i + 1..] + b;
    assert forall e :: e in a[..i] || e in a[i + 1..] ==> e in a;
  }

  predicate Feasible(s: Owner, ms: seq<Move>)
    decreases |ms|
  {
    ms == [] || (Enabled(s, ms[0]) && Feasible(Next(s, ms[0]), ms[1..]))
  }

  function Run(s: Owner, ms: seq<Move>): Owner
    requires Feasible(s, ms)
    decreases |ms|
  {
    if ms == [] then s else Run(Next(s, ms[0]), ms[1..])
  }

  /** Over every run of polls and losses, in any order: tracked paths stay unique, and
      whenever no poll is under way the open descriptors are exactly the tracked ones. */
  lemma {:induction false} DescriptorsOwned(s: Owner, ms: seq<Move>)
    requires Owned(s) && Feasible(s, ms)
    ensures var s' := Run(s, ms); Owned(s') && (s'.probes == [] ==> s'.open == Fds(s'.devs))
    decreases |ms|
  {
    if ms == [] {
      assert s.probes == [] ==> s.devs + s.probes == s.devs;
    } else {
      match ms[0] {
        case Poll(paths) => PollKeeps(s, paths);
        case Offer => OfferKeeps(s);
        case Lose(i) => LoseKeeps(s, i);
      }
      DescriptorsOwned(Next(s, ms[0]), ms[1..]);
    }
  }
}
