/** Assigning PCI addresses found in the environment to network interfaces: the
    in-place second half of GetInterfaces. */
module PciAllocator {
  import opened Common

  datatype DeviceType = Unknown | Host | Sriov | Other(name: string)

  datatype DeviceInfo = DeviceInfo(kind: string, pci: Option<string>, vdpa: Option<string>)

  const PCI_KIND := "pci"

  /** The value of one interface record. */
  datatype Iface = Iface(deviceType: DeviceType, deviceInfo: Option<DeviceInfo>, isDefault: bool)

  function PciInfo(address: string): DeviceInfo {
    DeviceInfo(PCI_KIND, Some(address), None)
  }

  function PciInterface(address: string): Iface {
    Iface(Sriov, Some(PciInfo(address)), false)
  }

  // ---------------------------------------------------------------------
  // Matching: which addresses already belong to an interface

  /** String comparison under case folding, as the caller provides it. */
  type Fold = (string, string) -> bool

  predicate MatchesPci(f: Iface, id: string, same: Fold) {
    f.deviceInfo.Some? && f.deviceInfo.value.pci.Some? && same(f.deviceInfo.value.pci.value, id)
  }

  predicate MatchesVdpa(f: Iface, id: string, same: Fold) {
    f.deviceInfo.Some? && f.deviceInfo.value.vdpa.Some? && same(f.deviceInfo.value.vdpa.value, id)
  }

  predicate Matches(f: Iface, id: string, same: Fold) {
    MatchesPci(f, id, same) || MatchesVdpa(f, id, same)
  }

  predicate Owned(ifs: seq<Iface>, id: string, same: Fold) {
    exists i :: 0 <= i < |ifs| && Matches(ifs[i], id, same)
  }

  /** The addresses no interface owns, in order. */
  function Unowned(ifs: seq<Iface>, ids: seq<string>, same: Fold): seq<string> {
    if ids == [] then []
    else
      var k := |ids| - 1;
      Unowned(ifs, ids[..k], same) + if Owned(ifs, ids[k], same) then [] else [ids[k]]
  }

  /** Interface i is the first to match id, and does so by its own PCI address. */
  predicate ClaimsFirst(ifs: seq<Iface>, i: int, id: string, same: Fold) {
    && 0 <= i < |ifs|
    && MatchesPci(ifs[i], id, same)
    && forall j :: 0 <= j < i ==> !Matches(ifs[j], id, same)
  }

  /** Interface i after matching: marked as SR-IOV when it is the first to match
      one of the addresses, and does so by PCI address. */
  function Marked(ifs: seq<Iface>, ids: seq<string>, same: Fold, i: nat): Iface
    requires i < |ifs|
  {
    if exists k :: 0 <= k < |ids| && ClaimsFirst(ifs, i, ids[k], same) then ifs[i].(deviceType := Sriov) else ifs[i]
  }

  /** Matching leaves all but the type alone, and turns an interface into SR-IOV exactly
      when it is the first to match one of the addresses and does so by PCI address. */
  lemma MatchingMarks(ifs: seq<Iface>, ids: seq<string>, same: Fold, i: nat)
    requires i < |ifs|
    ensures var f, g := ifs[i], Marked(ifs, ids, same, i);
            && g == Iface(g.deviceType, f.deviceInfo, f.isDefault)
            && (if exists id :: id in ids && ClaimsFirst(ifs, i, id, same) then g.deviceType == Sriov
                else g.deviceType == f.deviceType)
  {
    if id :| id in ids && ClaimsFirst(ifs, i, id, same) {
      var k :| 0 <= k < |ids| && ids[k] == id;
      assert ClaimsFirst(ifs, i, ids[k], same);
    }
  }

  // ---------------------------------------------------------------------
  // Allocation: who gets the addresses that are left

  function CountUnknown(ifs: seq<Iface>): nat {
    if ifs == [] then 0
    else CountUnknown(ifs[..|ifs| - 1]) + if ifs[|ifs| - 1].deviceType == Unknown then 1 else 0
  }

  /** The allocator's loop state: the interfaces, how many are still unknown, and
      the next address to hand out. */
  datatype Progress = Progress(ifaces: seq<Iface>, unknownCnt: int, pciIndex: nat)

  function Visit(p: Progress, i: nat, pcis: seq<string>): Progress
    requires i < |p.ifaces|
  {
    var f := p.ifaces[i];
    if f.deviceType != Unknown then p
    else if f.isDefault && p.unknownCnt > |pcis| then
      Progress(p.ifaces[i := f.(deviceType := Host)], p.unknownCnt - 1, p.pciIndex)
    else if p.pciIndex < |pcis| then
      if f.deviceInfo.None? then
        Progress(p.ifaces[i := f.(deviceType := Sriov, deviceInfo := Some(PciInfo(pcis[p.pciIndex])))],
                 p.unknownCnt - 1, p.pciIndex + 1)
      else p
    else Progress(p.ifaces[i := f.(deviceType := Host)], p.unknownCnt - 1, p.pciIndex)
  }

  /** The loop state after the first n interfaces. */
  function Visited(ifs: seq<Iface>, pcis: seq<string>, n: nat): (p: Progress)
    requires n <= |ifs|
    ensures |p.ifaces| == |ifs|
  {
    if n == 0 then Progress(ifs, CountUnknown(ifs), 0)
    else Visit(Visited(ifs, pcis, n - 1), n - 1, pcis)
  }

  /** The whole allocation: addresses left over become interfaces of their own. */
  function Allocated(ifs: seq<Iface>, pcis: seq<string>): seq<Iface> {
    var p := Visited(ifs, pcis, |ifs|);
    if p.pciIndex < |pcis| then p.ifaces + Appended(pcis[p.pciIndex..]) else p.ifaces
  }

  function Appended(pcis: seq<string>): seq<Iface> {
    seq(|pcis|, i requires 0 <= i < |pcis| => PciInterface(pcis[i]))
  }

  /** The addresses attached to the first n interfaces, in list order. */
  function Attached(before: seq<Iface>, after: seq<Iface>, n: nat): seq<string>
    requires n <= |before| && n <= |after|
  {
    if n == 0 then []
    else
      Attached(before, after, n - 1) +
      (if before[n - 1].deviceInfo.None? && after[n - 1].deviceInfo.Some? && after[n - 1].deviceInfo.value.pci.Some?
       then [after[n - 1].deviceInfo.value.pci.value] else [])
  }

  /** How many of the first n interfaces turned from unknown to host. */
  function NewHosts(before: seq<Iface>, after: seq<Iface>, n: nat): nat
    requires n <= |before| && n <= |after|
  {
    if n == 0 then 0
    else NewHosts(before, after, n - 1) +
         if before[n - 1].deviceType == Unknown && after[n - 1].deviceType == Host then 1 else 0
  }

  /** What allocation may do to one interface. */
  predicate Respects(before: Iface, after: Iface) {
    && after.isDefault == before.isDefault
    && (before.deviceType != Unknown ==> after == before)
    && (before.deviceInfo.Some? ==> after.deviceInfo == before.deviceInfo)
    && (before.deviceInfo.None? && after.deviceInfo.Some? ==>
          && after.deviceType == Sriov
          && after.deviceInfo.value.pci.Some?
          && after.deviceInfo.value == PciInfo(after.deviceInfo.value.pci.value))
    && (before.deviceType == Unknown && after.deviceInfo == before.deviceInfo ==> after.deviceType in {Unknown, Host})
  }

  lemma {:induction false} CountUnknownUpdate(ifs: seq<Iface>, i: nat, f: Iface)
    requires i < |ifs|
    ensures CountUnknown(ifs[i := f]) ==
            CountUnknown(ifs) - (if ifs[i].deviceType == Unknown then 1 else 0)
            + (if f.deviceType == Unknown then 1 else 0)
  {
    var k := |ifs| - 1;
    if i == k {
      assert ifs[i := f][..k] == ifs[..k];
    } else {
      assert ifs[i := f][..k] == ifs[..k][i := f];
      CountUnknownUpdate(ifs[..k], i, f);
    }
  }

  lemma {:induction false} AttachedFrame(before: seq<Iface>, a: seq<Iface>, b: seq<Iface>, n: nat)
    requires n <= |before| && n <= |a| && n <= |b|
    requires forall i :: 0 <= i < n ==> a[i] == b[i]
    ensures Attached(before, a, n) == Attached(before, b, n)
    ensures NewHosts(before, a, n) == NewHosts(before, b, n)
  {
    if n > 0 {
      AttachedFrame(before, a, b, n - 1);
    }
  }

  /** What one iteration does to the interface it visits and to the counts. */
  lemma VisitEffect(p: Progress, i: nat, pcis: seq<string>)
    requires i < |p.ifaces| && p.pciIndex <= |pcis|
    ensures var q := Visit(p, i, pcis); var f, g := p.ifaces[i], q.ifaces[i];
            && q.ifaces == p.ifaces[i := g]
            && Respects(f, g)
            && (g.deviceType == Unknown ==> f.deviceInfo.Some?)
            && p.pciIndex <= q.pciIndex <= |pcis|
            && (q.pciIndex == p.pciIndex ==> g.deviceInfo == f.deviceInfo)
            && (q.pciIndex != p.pciIndex ==>
                  && q.pciIndex == p.pciIndex + 1 && f.deviceType == Unknown && f.deviceInfo.None?
                  && g == f.(deviceType := Sriov, deviceInfo := Some(PciInfo(pcis[p.pciIndex]))))
            && p.unknownCnt - q.unknownCnt
               == (if f.deviceType == Unknown && g.deviceType != Unknown then 1 else 0)
            && p.unknownCnt - q.unknownCnt
               == (q.pciIndex - p.pciIndex) + if f.deviceType == Unknown && g.deviceType == Host then 1 else 0
  {
  }

  lemma VisitCounts(ifs: seq<Iface>, pcis: seq<string>, n: nat)
    requires 0 < n <= |ifs|
    requires Visited(ifs, pcis, n - 1).pciIndex <= |pcis|
    requires Visited(ifs, pcis, n - 1).ifaces[n - 1] == ifs[n - 1]
    ensures var q, p := Visited(ifs, pcis, n - 1), Visited(ifs, pcis, n);
            && CountUnknown(p.ifaces) - p.unknownCnt == CountUnknown(q.ifaces) - q.unknownCnt
            && p.unknownCnt + p.pciIndex + NewHosts(ifs, p.ifaces, n)
               == q.unknownCnt + q.pciIndex + NewHosts(ifs, q.ifaces, n - 1)
  {
    StepCounts(ifs, Visited(ifs, pcis, n - 1), n, pcis);
  }

  /** One iteration, from any loop state that has not touched interface n - 1. */
  lemma StepCounts(ifs: seq<Iface>, q: Progress, n: nat, pcis: seq<string>)
    requires 0 < n <= |ifs| == |q.ifaces| && q.pciIndex <= |pcis| && q.ifaces[n - 1] == ifs[n - 1]
    ensures var p := Visit(q, n - 1, pcis);
            && |p.ifaces| == |ifs|
            && CountUnknown(p.ifaces) - p.unknownCnt == CountUnknown(q.ifaces) - q.unknownCnt
            && p.unknownCnt + p.pciIndex + NewHosts(ifs, p.ifaces, n)
               == q.unknownCnt + q.pciIndex + NewHosts(ifs, q.ifaces, n - 1)
  {
    var p := Visit(q, n - 1, pcis);
    VisitEffect(q, n - 1, pcis);
    CountUnknownUpdate(q.ifaces, n - 1, p.ifaces[n - 1]);
    AttachedFrame(ifs, q.ifaces, p.ifaces, n - 1);
  }

  lemma VisitAttaches(ifs: seq<Iface>, pcis: seq<string>, n: nat)
    requires 0 < n <= |ifs|
    requires Visited(ifs, pcis, n - 1).pciIndex <= |pcis|
    requires Visited(ifs, pcis, n - 1).ifaces[n - 1] == ifs[n - 1]
    ensures var q, p := Visited(ifs, pcis, n - 1), Visited(ifs, pcis, n);
            && q.pciIndex <= p.pciIndex <= |pcis|
            && Attached(ifs, p.ifaces, n) == Attached(ifs, q.ifaces, n - 1) + pcis[q.pciIndex..p.pciIndex]
  {
    var q, p := Visited(ifs, pcis, n - 1), Visited(ifs, pcis, n);
    VisitEffect(q, n - 1, pcis);
    AttachedFrame(ifs, q.ifaces, p.ifaces, n - 1);
    assert p.pciIndex == q.pciIndex + 1 ==> pcis[q.pciIndex..p.pciIndex] == [pcis[q.pciIndex]];
  }

  /** What each prefix of the loop has done to single interfaces. */
  lemma {:induction false} VisitedShape(ifs: seq<Iface>, pcis: seq<string>, n: nat)
    requires n <= |ifs|
    ensures var p := Visited(ifs, pcis, n);
            && p.pciIndex <= |pcis|
            && (forall i :: n <= i < |ifs| ==> p.ifaces[i] == ifs[i])
            && (forall i :: 0 <= i < n ==> Respects(ifs[i], p.ifaces[i]))
            && (forall i :: 0 <= i < n && p.ifaces[i].deviceType == Unknown ==> ifs[i].deviceInfo.Some?)
  {
    if n > 0 {
      VisitedShape(ifs, pcis, n - 1);
      VisitEffect(Visited(ifs, pcis, n - 1), n - 1, pcis);
    }
  }

  /** The addresses attached so far are the ones handed out so far, in order. */
  lemma {:induction false} VisitedAttached(ifs: seq<Iface>, pcis: seq<string>, n: nat)
    requires n <= |ifs|
    ensures var p := Visited(ifs, pcis, n);
            p.pciIndex <= |pcis| && Attached(ifs, p.ifaces, n) == pcis[..p.pciIndex]
  {
    if n > 0 {
      var q, p := Visited(ifs, pcis, n - 1), Visited(ifs, pcis, n);
      VisitedAttached(ifs, pcis, n - 1);
      VisitedShape(ifs, pcis, n - 1);
      VisitAttaches(ifs, pcis, n);
      SliceAppends(pcis, q.pciIndex, p.pciIndex);
    }
  }

  lemma SliceAppends(pcis: seq<string>, i: nat, j: nat)
    requires i <= j <= |pcis|
    ensures pcis[..i] + pcis[i..j] == pcis[..j]
  {
  }

  /** The counting invariant of the loop, for every prefix of the list. */
  lemma {:induction false} VisitedInvariant(ifs: seq<Iface>, pcis: seq<string>, n: nat)
    requires n <= |ifs|
    ensures var p := Visited(ifs, pcis, n);
            && p.unknownCnt == CountUnknown(p.ifaces)
            && CountUnknown(ifs) == p.unknownCnt + p.pciIndex + NewHosts(ifs, p.ifaces, n)
  {
    if n > 0 {
      VisitedInvariant(ifs, pcis, n - 1);
      VisitedShape(ifs, pcis, n - 1);
      VisitCounts(ifs, pcis, n);
    }
  }

  /** Conservation, for any interfaces and addresses: the addresses attached to
      listed interfaces, in list order, followed by those of the appended ones, are
      exactly the addresses to place; nothing that was known, and no device
      information, is overwritten; and only an interface that came with device
      information can stay unknown. */
  lemma AllocationConserves(ifs: seq<Iface>, pcis: seq<string>)
    ensures var out := Allocated(ifs, pcis); var used := |pcis| - (|out| - |ifs|);
            && |ifs| <= |out| <= |ifs| + |pcis|
            && Attached(ifs, out, |ifs|) == pcis[..used]
            && (forall i :: |ifs| <= i < |out| ==>
                  out[i] == Iface(Sriov, Some(DeviceInfo("pci", Some(pcis[used + i - |ifs|]), None)), false))
            && (forall i :: 0 <= i < |ifs| ==> Respects(ifs[i], out[i]))
            && (forall i :: 0 <= i < |ifs| && out[i].deviceType == Unknown ==> ifs[i].deviceInfo.Some?)
            && CountUnknown(ifs) == CountUnknown(out[..|ifs|]) + used + NewHosts(ifs, out, |ifs|)
  {
    VisitedInvariant(ifs, pcis, |ifs|);
    VisitedShape(ifs, pcis, |ifs|);
    VisitedAttached(ifs, pcis, |ifs|);
    var p, out := Visited(ifs, pcis, |ifs|), Allocated(ifs, pcis);
    AttachedFrame(ifs, p.ifaces, out, |ifs|);
    assert out[..|ifs|] == p.ifaces;
    assert |out| - |ifs| == |pcis| - p.pciIndex;
  }

  /** Every listed interface, decided from the result alone. With `a` addresses attached
      before it, and `u` interfaces unknown from it on or left unknown before it: a
      known interface stays; a default one becomes host when u is more than the number
      of addresses; with no address left any becomes host; else one without device
      information takes the next address, and one with it stays unknown. */
  lemma EachDecided(ifs: seq<Iface>, pcis: seq<string>, i: nat)
    requires i < |ifs|
    ensures |Allocated(ifs, pcis)| >= |ifs|
    ensures var out, f := Allocated(ifs, pcis), ifs[i];
            var a, u := |Attached(ifs, out, i)|, CountUnknown(out[..i] + ifs[i..]);
            && a <= |pcis|
            && out[i] == if f.deviceType != Unknown then f
                         else if (f.isDefault && u > |pcis|) || a == |pcis| then Iface(Host, f.deviceInfo, f.isDefault)
                         else if f.deviceInfo.None? then
                           Iface(Sriov, Some(DeviceInfo("pci", Some(pcis[a]), None)), f.isDefault)
                         else f
  {
    ResultUpTo(ifs, pcis, i);
    VisitedInvariant(ifs, pcis, i);
    VisitedAttached(ifs, pcis, i);
    AttachedFrame(ifs, Visited(ifs, pcis, i).ifaces, Allocated(ifs, pcis), i);
    assert |pcis[..Visited(ifs, pcis, i).pciIndex]| == Visited(ifs, pcis, i).pciIndex;
  }

  /** What the loop has done when it comes to interface i is what the result shows. */
  lemma ResultUpTo(ifs: seq<Iface>, pcis: seq<string>, i: nat)
    requires i < |ifs|
    ensures |Allocated(ifs, pcis)| >= |ifs|
    ensures var q, out := Visited(ifs, pcis, i), Allocated(ifs, pcis);
            && q.ifaces[i] == ifs[i]
            && (forall j :: 0 <= j < i ==> out[j] == q.ifaces[j])
            && q.ifaces == out[..i] + ifs[i..]
            && out[i] == Visit(q, i, pcis).ifaces[i]
  {
    var q, out := Visited(ifs, pcis, i), Allocated(ifs, pcis);
    VisitedShape(ifs, pcis, i);
    ResultPrefix(ifs, pcis, i);
    OnlyVisited(q, i, pcis);
    assert q.ifaces == out[..i] + ifs[i..];
  }

  lemma OnlyVisited(q: Progress, i: nat, pcis: seq<string>)
    requires i < |q.ifaces|
    ensures var p := Visit(q, i, pcis);
            |p.ifaces| == |q.ifaces| && forall j :: 0 <= j < |q.ifaces| && j != i ==> p.ifaces[j] == q.ifaces[j]
  {
  }

  /** The interfaces up to i stay as iteration i left them. */
  lemma ResultPrefix(ifs: seq<Iface>, pcis: seq<string>, i: nat)
    requires i < |ifs|
    ensures var p, out := Visited(ifs, pcis, i + 1).ifaces, Allocated(ifs, pcis);
            |out| >= |ifs| && forall j :: 0 <= j <= i ==> out[j] == p[j]
  {
    var p, out := Visited(ifs, pcis, i + 1).ifaces, Allocated(ifs, pcis);
    VisitedStays(ifs, pcis, i, |ifs|);
    assert out[..i + 1] == p[..i + 1];
    assert forall j :: 0 <= j <= i ==> out[j] == out[..i + 1][j] && p[j] == p[..i + 1][j];
  }

  /** When no unknown interface carries device information, enough unknown ones
      remain for the addresses that remain, whatever order the list is in. */
  lemma {:induction false} EnoughLeft(ifs: seq<Iface>, pcis: seq<string>, n: nat)
    requires n <= |ifs|
    requires forall i :: 0 <= i < |ifs| && ifs[i].deviceType == Unknown ==> ifs[i].deviceInfo.None?
    ensures var p := Visited(ifs, pcis, n);
            && (CountUnknown(ifs) >= |pcis| ==> p.unknownCnt >= |pcis| - p.pciIndex)
            && (CountUnknown(ifs) <= |pcis| ==> p.unknownCnt + p.pciIndex == CountUnknown(ifs))
  {
    if n > 0 {
      EnoughLeft(ifs, pcis, n - 1);
      VisitedShape(ifs, pcis, n - 1);
      VisitedInvariant(ifs, pcis, n - 1);
      VisitedInvariant(ifs, pcis, n);
    }
  }

  /** Exact counts: with U unknown interfaces, none carrying device information,
      and P addresses, exactly max(0, P - U) interfaces are appended, exactly
      max(0, U - P) become host, and none stays unknown, for any list order and any
      number of default flags. */
  lemma ExactCounts(ifs: seq<Iface>, pcis: seq<string>)
    requires forall i :: 0 <= i < |ifs| && ifs[i].deviceType == Unknown ==> ifs[i].deviceInfo.None?
    ensures var out, u, p := Allocated(ifs, pcis), CountUnknown(ifs), |pcis|;
            && |out| - |ifs| == (if p > u then p - u else 0)
            && NewHosts(ifs, out, |ifs|) == (if u > p then u - p else 0)
            && forall i :: 0 <= i < |out| ==> out[i].deviceType != Unknown
  {
    AllocationConserves(ifs, pcis);
    VisitedInvariant(ifs, pcis, |ifs|);
    VisitedShape(ifs, pcis, |ifs|);
    EnoughLeft(ifs, pcis, |ifs|);
    var p, out := Visited(ifs, pcis, |ifs|), Allocated(ifs, pcis);
    forall i | 0 <= i < |out|
      ensures out[i].deviceType != Unknown
    {
      assert i < |ifs| ==> Respects(ifs[i], out[i]);
    }
    NoneUnknown(p.ifaces);
    AttachedFrame(ifs, p.ifaces, out, |ifs|);
  }

  lemma {:induction false} NoneUnknown(ifs: seq<Iface>)
    requires forall i :: 0 <= i < |ifs| ==> ifs[i].deviceType != Unknown
    ensures CountUnknown(ifs) == 0
  {
    if ifs != [] {
      NoneUnknown(ifs[..|ifs| - 1]);
    }
  }

  /** Later iterations leave an interface as its own iteration made it. */
  lemma {:induction false} VisitedStays(ifs: seq<Iface>, pcis: seq<string>, i: nat, n: nat)
    requires i < n <= |ifs|
    ensures Visited(ifs, pcis, n).ifaces[..i + 1] == Visited(ifs, pcis, i + 1).ifaces[..i + 1]
  {
    if n > i + 1 {
      VisitedStays(ifs, pcis, i, n - 1);
      VisitedShape(ifs, pcis, n - 1);
      VisitEffect(Visited(ifs, pcis, n - 1), n - 1, pcis);
    }
  }

  /** An interface that is not the default one becomes host only when every address
      has gone to an interface listed before it. */
  lemma HostOnlyWhenExhausted(ifs: seq<Iface>, pcis: seq<string>, i: nat)
    requires i < |ifs| && ifs[i].deviceType == Unknown && !ifs[i].isDefault
    requires Allocated(ifs, pcis)[i].deviceType == Host
    ensures Attached(ifs, Allocated(ifs, pcis), i) == pcis
  {
    var q, out := Visited(ifs, pcis, i), Allocated(ifs, pcis);
    VisitedShape(ifs, pcis, i);
    VisitedAttached(ifs, pcis, i);
    VisitedStays(ifs, pcis, i, |ifs|);
    var p := Visited(ifs, pcis, i + 1);
    VisitEffect(q, i, pcis);
    assert out[..i + 1] == p.ifaces[..i + 1];
    assert out[i] == p.ifaces[..i + 1][i];
    assert forall j :: 0 <= j < i ==> out[j] == p.ifaces[..i + 1][j] == q.ifaces[j];
    AttachedFrame(ifs, q.ifaces, out, i);
  }

  /** With more unknown interfaces than addresses, the default interface becomes host
      if no other unknown one is listed before it. */
  lemma FirstDefaultBecomesHost(ifs: seq<Iface>, pcis: seq<string>, i: nat)
    requires i < |ifs| && ifs[i].deviceType == Unknown && ifs[i].isDefault
    requires forall j :: 0 <= j < i ==> ifs[j].deviceType != Unknown
    requires CountUnknown(ifs) > |pcis|
    ensures Allocated(ifs, pcis)[i].deviceType == Host
  {
    NothingBefore(ifs, pcis, i);
    VisitedStays(ifs, pcis, i, |ifs|);
    assert Allocated(ifs, pcis)[i] == Visited(ifs, pcis, i + 1).ifaces[..i + 1][i];
  }

  lemma {:induction false} NothingBefore(ifs: seq<Iface>, pcis: seq<string>, n: nat)
    requires n <= |ifs| && forall j :: 0 <= j < n ==> ifs[j].deviceType != Unknown
    ensures Visited(ifs, pcis, n) == Progress(ifs, CountUnknown(ifs), 0)
  {
    if n > 0 {
      NothingBefore(ifs, pcis, n - 1);
    }
  }

  /** Unknown interfaces that are not default and carry no device information are
      served one after another. */
  lemma {:induction false} PlainBefore(ifs: seq<Iface>, pcis: seq<string>, n: nat)
    requires n <= |ifs|
    requires forall j :: 0 <= j < n && ifs[j].deviceType == Unknown ==>
               !ifs[j].isDefault && ifs[j].deviceInfo.None?
    ensures var p, b := Visited(ifs, pcis, n), CountUnknown(ifs[..n]);
            && p.ifaces[n..] == ifs[n..]
            && p.unknownCnt == CountUnknown(ifs) - b
            && p.pciIndex == Min(b, |pcis|)
  {
    if n > 0 {
      PlainBefore(ifs, pcis, n - 1);
      assert ifs[..n][..n - 1] == ifs[..n - 1];
      var p := Visited(ifs, pcis, n - 1);
      assert p.ifaces[n - 1] == p.ifaces[n - 1..][0] == ifs[n - 1];
      VisitEffect(p, n - 1, pcis);
      assert Visited(ifs, pcis, n).ifaces[n..] == p.ifaces[n - 1..][1..] == ifs[n..];
    }
  }

  /** Exactly when the first default interface becomes host, with b plain unknown ones
      listed before it: when more than |pcis| interfaces are unknown from it on, or
      when those before it took all addresses. */
  lemma FirstDefaultIsHostIff(ifs: seq<Iface>, pcis: seq<string>, i: nat)
    requires i < |ifs| && ifs[i].deviceType == Unknown && ifs[i].isDefault && ifs[i].deviceInfo.None?
    requires forall j :: 0 <= j < i && ifs[j].deviceType == Unknown ==>
               !ifs[j].isDefault && ifs[j].deviceInfo.None?
    ensures var b := CountUnknown(ifs[..i]);
            Allocated(ifs, pcis)[i].deviceType == Host <==> CountUnknown(ifs) - b > |pcis| || b >= |pcis|
  {
    PlainBefore(ifs, pcis, i);
    var p := Visited(ifs, pcis, i);
    assert p.ifaces[i] == p.ifaces[i..][0] == ifs[i];
    VisitedStays(ifs, pcis, i, |ifs|);
    assert Allocated(ifs, pcis)[i] == Visited(ifs, pcis, i + 1).ifaces[..i + 1][i];
  }

  // ---------------------------------------------------------------------
  // The in-place code

  class InterfaceData {
    var deviceType: DeviceType
    var deviceInfo: Option<DeviceInfo>
    const isDefault: bool

    constructor (f: Iface)
      ensures View() == f
    {
      deviceType, deviceInfo, isDefault := f.deviceType, f.deviceInfo, f.isDefault;
    }

    function View(): Iface
      reads this
    {
      Iface(deviceType, deviceInfo, isDefault)
    }
  }

  predicate AllDifferent(xs: seq<InterfaceData>) {
    forall i, j :: 0 <= i < j < |xs| ==> xs[i] != xs[j]
  }

  function Views(xs: seq<InterfaceData>): seq<Iface>
    reads xs
  {
    seq(|xs|, i requires 0 <= i < |xs| reads xs => xs[i].View())
  }

  /** Marks the interface that owns id, if the first match is by PCI address. */
  method FindOwner(xs: seq<InterfaceData>, id: string, same: Fold) returns (found: bool)
    requires AllDifferent(xs)
    modifies xs
    ensures found == Owned(old(Views(xs)), id, same)
    ensures forall i :: 0 <= i < |xs| ==> Views(xs)[i] == Marked(old(Views(xs)), [id], same, i)
  {
    ghost var ifs := Views(xs);
    found := false;
    var n := 0;
    while n < |xs|
      invariant 0 <= n <= |xs|
      invariant !found
      invariant Views(xs) == ifs
      invariant forall j :: 0 <= j < n ==> !Matches(ifs[j], id, same)
    {
      var x := xs[n];
      assert x.View() == ifs[n];
      if x.deviceInfo.Some? {
        if x.deviceInfo.value.pci.Some? && same(x.deviceInfo.value.pci.value, id) {
          x.deviceType := Sriov;
          found := true;
          assert ClaimsFirst(ifs, n, [id][0], same);
          break;
        }
        if x.deviceInfo.value.vdpa.Some? && same(x.deviceInfo.value.vdpa.value, id) {
          found := true;
          break;
        }
      }
      n := n + 1;
    }
    assert found ==> n < |xs| && Matches(ifs[n], id, same);
    forall i | 0 <= i < |xs|
      ensures xs[i].View() == Marked(ifs, [id], same, i)
    {
      if exists k :: 0 <= k < |[id]| && ClaimsFirst(ifs, i, [id][k], same) {
        assert ClaimsFirst(ifs, i, id, same);
      }
    }
  }

  /** Matching only changes device types, so it never changes who matches whom. */
  lemma MatchingFrame(ifs: seq<Iface>, marked: seq<Iface>, id: string, same: Fold)
    requires |ifs| == |marked|
    requires forall i :: 0 <= i < |ifs| ==> marked[i].deviceInfo == ifs[i].deviceInfo
    ensures Owned(marked, id, same) == Owned(ifs, id, same)
    ensures forall i :: ClaimsFirst(marked, i, id, same) <==> ClaimsFirst(ifs, i, id, same)
  {
    assert forall i :: 0 <= i < |ifs| ==> Matches(marked[i], id, same) == Matches(ifs[i], id, same);
  }

  /** One more address: who is marked, and who is left. */
  lemma MarkedExtends(ifs: seq<Iface>, marked: seq<Iface>, ids: seq<string>, id: string, same: Fold)
    requires |marked| == |ifs| && forall i :: 0 <= i < |ifs| ==> marked[i] == Marked(ifs, ids, same, i)
    ensures forall i :: 0 <= i < |ifs| ==> Marked(marked, [id], same, i) == Marked(ifs, ids + [id], same, i)
    ensures Unowned(ifs, ids + [id], same) ==
            Unowned(ifs, ids, same) + if Owned(marked, id, same) then [] else [id]
  {
    MatchingFrame(ifs, marked, id, same);
    var all := ids + [id];
    assert all[..|ids|] == ids;
    forall i | 0 <= i < |ifs|
      ensures Marked(marked, [id], same, i) == Marked(ifs, all, same, i)
    {
      if ClaimsFirst(ifs, i, id, same) {
        assert ClaimsFirst(ifs, i, all[|ids|], same) && ClaimsFirst(marked, i, [id][0], same);
      } else if exists k :: 0 <= k < |ids| && ClaimsFirst(ifs, i, ids[k], same) {
        var k :| 0 <= k < |ids| && ClaimsFirst(ifs, i, ids[k], same);
        assert ClaimsFirst(ifs, i, all[k], same);
      }
    }
  }

  /** Goes through the addresses of the environment; returns those that no listed
      interface owns, and marks the owners as SR-IOV. */
  method MatchAddresses(xs: seq<InterfaceData>, ids: seq<string>, same: Fold) returns (pcis: seq<string>)
    requires AllDifferent(xs)
    modifies xs
    ensures pcis == Unowned(old(Views(xs)), ids, same)
    ensures forall i :: 0 <= i < |xs| ==> Views(xs)[i] == Marked(old(Views(xs)), ids, same, i)
  {
    ghost var ifs := Views(xs);
    pcis := [];
    for k := 0 to |ids|
      invariant pcis == Unowned(ifs, ids[..k], same)
      invariant forall i :: 0 <= i < |xs| ==> Views(xs)[i] == Marked(ifs, ids[..k], same, i)
    {
      MarkedExtends(ifs, Views(xs), ids[..k], ids[k], same);
      assert ids[..k + 1] == ids[..k] + [ids[k]];
      var found := FindOwner(xs, ids[k], same);
      if !found {
        pcis := pcis + [ids[k]];
      }
    }
    assert ids[..|ids|] == ids;
  }

  /** Counts the interfaces of unknown type. */
  method CountUnknowns(xs: seq<InterfaceData>) returns (unknownCnt: nat)
    ensures unknownCnt == CountUnknown(Views(xs))
  {
    unknownCnt := 0;
    for n := 0 to |xs|
      invariant unknownCnt == CountUnknown(Views(xs)[..n])
    {
      assert Views(xs)[..n + 1][..n] == Views(xs)[..n];
      if xs[n].deviceType == Unknown {
        unknownCnt := unknownCnt + 1;
      }
    }
    assert Views(xs)[..|xs|] == Views(xs);
  }

  /** Visits one interface of the list. */
  method VisitInterface(xs: seq<InterfaceData>, n: nat, pcis: seq<string>, unknownCnt: int, pciIndex: nat)
    returns (unknownLeft: int, nextIndex: nat)
    requires AllDifferent(xs) && n < |xs|
    modifies xs[n]
    ensures Progress(Views(xs), unknownLeft, nextIndex)
            == Visit(Progress(old(Views(xs)), unknownCnt, pciIndex), n, pcis)
  {
    var x := xs[n];
    unknownLeft, nextIndex := unknownCnt, pciIndex;
    if x.deviceType == Unknown {
      if x.isDefault && unknownCnt > |pcis| {
        x.deviceType := Host;
        unknownLeft := unknownCnt - 1;
      } else if pciIndex < |pcis| {
        if x.deviceInfo.None? {
          x.deviceType := Sriov;
          unknownLeft := unknownCnt - 1;
          x.deviceInfo := Some(PciInfo(pcis[pciIndex]));
          nextIndex := pciIndex + 1;
        }
      } else {
        x.deviceType := Host;
        unknownLeft := unknownCnt - 1;
      }
    }
    assert Views(xs) == old(Views(xs))[n := x.View()];
  }

  /** Appends an SR-IOV interface for every address left. */
  method AppendInterfaces(xs: seq<InterfaceData>, pcis: seq<string>) returns (result: seq<InterfaceData>)
    ensures xs <= result
    ensures Views(result) == Views(xs) + Appended(pcis)
    ensures forall i :: |xs| <= i < |result| ==>
              result[i].View() == Iface(Sriov, Some(DeviceInfo("pci", Some(pcis[i - |xs|]), None)), false)
    ensures forall i :: |xs| <= i < |result| ==> fresh(result[i])
  {
    result := xs;
    for k := 0 to |pcis|
      invariant |result| == |xs| + k && xs <= result
      invariant forall i :: |xs| <= i < |result| ==>
                  fresh(result[i]) && result[i].View() == PciInterface(pcis[i - |xs|])
    {
      var x := new InterfaceData(PciInterface(pcis[k]));
      result := result + [x];
    }
  }

  /** Hands out the addresses to the unknown interfaces. The running count is the
      number of interfaces still unknown at every iteration. */
  method AssignListed(xs: seq<InterfaceData>, pcis: seq<string>) returns (pciIndex: nat)
    requires AllDifferent(xs)
    modifies xs
    ensures Views(xs) == Visited(old(Views(xs)), pcis, |xs|).ifaces
    ensures pciIndex == Visited(old(Views(xs)), pcis, |xs|).pciIndex
  {
    ghost var ifs := Views(xs);
    var unknownCnt: int := CountUnknowns(xs);
    pciIndex := 0;
    for n := 0 to |xs|
      invariant Progress(Views(xs), unknownCnt, pciIndex) == Visited(ifs, pcis, n)
      invariant unknownCnt == CountUnknown(Views(xs))
    {
      unknownCnt, pciIndex := VisitNext(xs, ifs, n, pcis, unknownCnt, pciIndex);
    }
  }

  /** The body of the loop: the next interface. */
  method VisitNext(xs: seq<InterfaceData>, ghost ifs: seq<Iface>, n: nat, pcis: seq<string>, unknownCnt: int,
                   pciIndex: nat)
    returns (unknownLeft: int, nextIndex: nat)
    requires AllDifferent(xs) && n < |xs| == |ifs|
    requires Progress(Views(xs), unknownCnt, pciIndex) == Visited(ifs, pcis, n)
    modifies xs[n]
    ensures Progress(Views(xs), unknownLeft, nextIndex) == Visited(ifs, pcis, n + 1)
    ensures unknownLeft == CountUnknown(Views(xs))
  {
    RunningCount(ifs, pcis, n + 1);
    unknownLeft, nextIndex := VisitInterface(xs, n, pcis, unknownCnt, pciIndex);
  }

  lemma RunningCount(ifs: seq<Iface>, pcis: seq<string>, n: nat)
    requires n <= |ifs|
    ensures Visited(ifs, pcis, n).unknownCnt == CountUnknown(Visited(ifs, pcis, n).ifaces)
  {
    VisitedInvariant(ifs, pcis, n);
  }

  /** Hands out the addresses and appends an interface for each one left. */
  method AssignAddresses(xs: seq<InterfaceData>, pcis: seq<string>) returns (result: seq<InterfaceData>)
    requires AllDifferent(xs)
    modifies xs
    ensures xs <= result
    ensures Views(result) == Allocated(old(Views(xs)), pcis)
    ensures forall i :: |xs| <= i < |result| ==> fresh(result[i])
  {
    var pciIndex := AssignListed(xs, pcis);
    if pciIndex < |pcis| {
      result := AppendInterfaces(xs, pcis[pciIndex..]);
    } else {
      result := xs;
    }
  }

  /** An address handed to the allocator ends up on an interface. */
  lemma AllocatedAddressPlaced(ifs: seq<Iface>, pcis: seq<string>, k: nat) returns (i: nat)
    requires k < |pcis|
    ensures i < |Allocated(ifs, pcis)|
    ensures Allocated(ifs, pcis)[i].deviceInfo.Some?
    ensures Allocated(ifs, pcis)[i].deviceInfo.value.pci == Some(pcis[k])
  {
    var out := Allocated(ifs, pcis);
    AllocationConserves(ifs, pcis);
    var used := |pcis| - (|out| - |ifs|);
    if k < used {
      assert pcis[..used][k] == pcis[k];
      i := AttachedAt(ifs, out, |ifs|, k);
    } else {
      i := |ifs| + (k - used);
    }
  }

  /** After matching and allocation, every address of the environment belongs to an
      interface: to one that already owned it, or to one that took it. */
  lemma EveryAddressPlaced(ifs: seq<Iface>, marked: seq<Iface>, ids: seq<string>, same: Fold, id: string)
    requires id in ids && same(id, id)
    requires |marked| == |ifs| && forall i :: 0 <= i < |ifs| ==> marked[i] == Marked(ifs, ids, same, i)
    ensures Owned(Allocated(marked, Unowned(ifs, ids, same)), id, same)
  {
    var pcis := Unowned(ifs, ids, same);
    var out := Allocated(marked, pcis);
    if Owned(ifs, id, same) {
      var i :| 0 <= i < |ifs| && Matches(ifs[i], id, same);
      AllocationConserves(marked, pcis);
      assert Respects(marked[i], out[i]);
      assert Matches(out[i], id, same);
    } else {
      UnownedHas(ifs, ids, same, id);
      var k :| 0 <= k < |pcis| && pcis[k] == id;
      var i := AllocatedAddressPlaced(marked, pcis, k);
      assert Matches(out[i], id, same);
    }
  }

  lemma {:induction false} UnownedHas(ifs: seq<Iface>, ids: seq<string>, same: Fold, id: string)
    ensures id in Unowned(ifs, ids, same) <==> id in ids && !Owned(ifs, id, same)
  {
    if ids != [] {
      var k := |ids| - 1;
      UnownedHas(ifs, ids[..k], same, id);
      assert ids == ids[..k] + [ids[k]];
    }
  }

  /** The addresses no interface owns keep their order and number. */
  lemma {:induction false} UnownedInOrder(ifs: seq<Iface>, xs: seq<string>, ys: seq<string>, same: Fold)
    ensures Unowned(ifs, xs + ys, same) == Unowned(ifs, xs, same) + Unowned(ifs, ys, same)
    ensures |ys| == 1 ==> Unowned(ifs, ys, same) == if Owned(ifs, ys[0], same) then [] else ys
  {
    if ys == [] {
      assert xs + ys == xs;
    } else {
      var k := |ys| - 1;
      assert (xs + ys)[..|xs + ys| - 1] == xs + ys[..k];
      UnownedInOrder(ifs, xs, ys[..k], same);
    }
  }

  /** The interface to which the k-th attached address went. */
  lemma {:induction false} AttachedAt(before: seq<Iface>, after: seq<Iface>, n: nat, k: nat) returns (i: nat)
    requires n <= |before| && n <= |after| && k < |Attached(before, after, n)|
    ensures i < n && after[i].deviceInfo.Some? && after[i].deviceInfo.value.pci == Some(Attached(before, after, n)[k])
  {
    if k < |Attached(before, after, n - 1)| {
      i := AttachedAt(before, after, n - 1, k);
    } else {
      i := n - 1;
    }
  }

  /** The part of GetInterfaces that places the addresses of the environment. */
  method PlaceAddresses(xs: seq<InterfaceData>, ids: seq<string>, same: Fold) returns (result: seq<InterfaceData>)
    requires AllDifferent(xs)
    modifies xs
    ensures xs <= result
    ensures |result| <= |xs| + |Unowned(old(Views(xs)), ids, same)|
    ensures forall i :: 0 <= i < |xs| ==>
              Respects(Marked(old(Views(xs)), ids, same, i), result[i].View())
    ensures forall id :: id in ids && same(id, id) ==> Owned(Views(result), id, same)
  {
    ghost var ifs := Views(xs);
    var pcis := MatchAddresses(xs, ids, same);
    ghost var marked := Views(xs);
    result := AssignAddresses(xs, pcis);
    AllocationConserves(marked, pcis);
    forall i | 0 <= i < |xs|
      ensures Respects(Marked(ifs, ids, same, i), result[i].View())
    {
      assert Views(result)[i] == result[i].View();
    }
    forall id | id in ids && same(id, id)
      ensures Owned(Views(result), id, same)
    {
      EveryAddressPlaced(ifs, marked, ids, same, id);
    }
  }
}
