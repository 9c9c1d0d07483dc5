/** Which devices the controller tracks, over runs of hot-plugs and losses (main.go). */
module KvmDevices {
  import opened Kvm

  lemma {:induction false} OthersDiffer(devs: seq<Device>, i: nat)
    requires UniquePaths(devs) && i < |devs|
    ensures forall j :: 0 <= j < |devs| && j != i ==> devs[j] != devs[i]
  {
    forall j | 0 <= j < |devs| && j != i ensures devs[j] != devs[i] {
      assert devs[j].path != devs[i].path;
    }
  }

  /** A lost device leaves the list, and its path with it; the others keep their order. Its
      reader alone reports it, so nothing else is dropped, and the grab is off. */
  lemma {:induction false} LostIsGone(k: Core, i: nat)
    requires GrabInvariant(k) && i < |k.devs|
    ensures var k' := DeviceLost(k, k.devs[i]).k;
            && k'.devs == k.devs[..i] + k.devs[i + 1..]
            && !Tracks(k'.devs, k.devs[i].path) && !k'.grabbed && k'.held == {}
  {
    var k', d := DeviceLost(k, k.devs[i]).k, k.devs[i];
    OthersDiffer(k.devs, i);
    WithoutDropsOne(k.devs, i);
    LostKeeps(k, d);
    forall j | 0 <= j < |k'.devs| ensures k'.devs[j].path != d.path {
      assert k'.devs[j] == k.devs[if j < i then j else j + 1];
    }
  }

  /** A device that is no longer tracked cannot take another one's place away. */
  lemma {:induction false} LostTwice(k: Core, d: Device)
    requires d !in k.devs
    ensures DeviceLost(k, d).k.devs == k.devs
  {
    WithoutAbsent(k.devs, d);
  }

  /** Only hot-plug and loss change the list. */
  lemma {:induction false} OthersLeaveDevices(k: Core, toggleKey: int, call: Call)
    requires !call.OnTrack? && !call.OnDeviceLost?
    ensures Perform(k, toggleKey, call).k.devs == k.devs
  {
  }

  lemma {:induction false} QuietCallsLeaveDevices(k: Core, toggleKey: int, calls: seq<Call>)
    requires forall i :: 0 <= i < |calls| ==> !calls[i].OnTrack? && !calls[i].OnDeviceLost?
    ensures PerformAll(k, toggleKey, calls).devs == k.devs
    decreases |calls|
  {
    if calls != [] {
      OthersLeaveDevices(k, toggleKey, calls[0]);
      QuietCallsLeaveDevices(Perform(k, toggleKey, calls[0]).k, toggleKey, calls[1..]);
    }
  }

  /** A node that comes back on the path of a lost one is tracked again, last in the list,
      whatever else has happened in between. */
  lemma {:induction false} BackAgain(k: Core, toggleKey: int, i: nat, calls: seq<Call>, d: Device)
    requires GrabInvariant(k) && i < |k.devs| && d.path == k.devs[i].path
    requires forall j :: 0 <= j < |calls| ==> !calls[j].OnTrack? && !calls[j].OnDeviceLost?
    ensures var lost := Perform(k, toggleKey, OnDeviceLost(k.devs[i])).k;
            var back := Perform(PerformAll(lost, toggleKey, calls), toggleKey, OnTrack(d)).k;
            back.devs == k.devs[..i] + k.devs[i + 1..] + [d]
  {
    LostIsGone(k, i);
    QuietCallsLeaveDevices(DeviceLost(k, k.devs[i]).k, toggleKey, calls);
  }

  // ---- From the history ----

  /** By the calls alone: the latest one about this path is a hot-plug, not the loss of the
      device that was on it. */
  predicate OnPath(k: Core, toggleKey: int, calls: seq<Call>, path: string)
    decreases |calls|
  {
    if calls == [] then Tracks(k.devs, path)
    else
      var before, last := calls[..|calls| - 1], calls[|calls| - 1];
      match last
      case OnTrack(d) => d.path == path || OnPath(k, toggleKey, before, path)
      case OnDeviceLost(d) =>
        OnPath(k, toggleKey, before, path) && !(d.path == path && d in PerformAll(k, toggleKey, before).devs)
      case _ => OnPath(k, toggleKey, before, path)
  }

  lemma {:induction false} PerformLast(k: Core, toggleKey: int, calls: seq<Call>, last: Call)
    ensures PerformAll(k, toggleKey, calls + [last]) == Perform(PerformAll(k, toggleKey, calls), toggleKey, last).k
    decreases |calls|
  {
    if calls == [] {
      assert [] + [last] == [last] && [last][1..] == [];
    } else {
      assert (calls + [last])[1..] == calls[1..] + [last];
      PerformLast(Perform(k, toggleKey, calls[0]).k, toggleKey, calls[1..], last);
    }
  }

  /** Over every run, exactly the paths are tracked that the history says are there. */
  lemma {:induction false} TrackedByHistory(k: Core, toggleKey: int, calls: seq<Call>, path: string)
    requires GrabInvariant(k)
    ensures Tracks(PerformAll(k, toggleKey, calls).devs, path) <==> OnPath(k, toggleKey, calls, path)
    decreases |calls|
  {
    if calls != [] {
      var before, last := calls[..|calls| - 1], calls[|calls| - 1];
      TrackedByHistory(k, toggleKey, before, path);
      GrabInvariantAlways(k, toggleKey, before);
      assert calls == before + [last];
      PerformLast(k, toggleKey, before, last);
      PathAfter(PerformAll(k, toggleKey, before), toggleKey, last, path);
    }
  }

  lemma {:induction false} PathAfter(k: Core, toggleKey: int, call: Call, path: string)
    requires GrabInvariant(k)
    ensures Tracks(Perform(k, toggleKey, call).k.devs, path) <==>
              match call
              case OnTrack(d) => d.path == path || Tracks(k.devs, path)
              case OnDeviceLost(d) => Tracks(k.devs, path) && !(d.path == path && d in k.devs)
              case _ => Tracks(k.devs, path)
  {
    match call
    case OnTrack(d) => PathAfterTrack(k.devs, d, path);
    case OnDeviceLost(d) => PathAfterLoss(k, d, path);
    case _ => OthersLeaveDevices(k, toggleKey, call);
  }

  lemma {:induction false} PathAfterTrack(devs: seq<Device>, d: Device, path: string)
    ensures Tracks(devs + [d], path) <==> d.path == path || Tracks(devs, path)
  {
    var more := devs + [d];
    assert more[|devs|] == d;
    if i :| 0 <= i < |devs| && devs[i].path == path {
      assert more[i] == devs[i];
    }
  }

  lemma {:induction false} PathAfterLoss(k: Core, d: Device, path: string)
    requires GrabInvariant(k)
    ensures Tracks(DeviceLost(k, d).k.devs, path) <==> Tracks(k.devs, path) && !(d.path == path && d in k.devs)
  {
    if d in k.devs {
      var i :| 0 <= i < |k.devs| && k.devs[i] == d;
      LostIsGone(k, i);
      PathAfterCut(k.devs, i, path);
    } else {
      LostTwice(k, d);
    }
  }

  lemma {:induction false} PathAfterCut(devs: seq<Device>, i: nat, path: string)
    requires UniquePaths(devs) && i < |devs|
    ensures Tracks(devs[..i] + devs[i + 1..], path) <==> Tracks(devs, path) && devs[i].path != path
  {
    var rest := devs[..i] + devs[i + 1..];
    forall j | 0 <= j < |rest| ensures rest[j] == devs[if j < i then j else j + 1] {
    }
    if j :| 0 <= j < |devs| && devs[j].path == path && j != i {
      assert rest[if j < i then j else j - 1] == devs[j];
    }
  }
}
