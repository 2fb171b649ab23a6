/** How the USB hub turns enumerated devices into its list of wallets (wallets/usbwallet/hub.go). */
module HubRefresh {
  import opened StringOrder

  // ---- Matching devices ------------------------------------------------------------------------------

  datatype DeviceInfo = DeviceInfo(path: string, productID: int, usagePage: int, iface: int)

  predicate Matches(info: DeviceInfo, productIDs: seq<int>, usageID: int, endpointID: int) {
    info.productID in productIDs && (info.usagePage == usageID || info.iface == endpointID)
  }

  function Matching(infos: seq<DeviceInfo>, productIDs: seq<int>, usageID: int, endpointID: int): seq<string> {
    if infos == [] then []
    else
      var last := infos[|infos| - 1];
      Matching(infos[..|infos| - 1], productIDs, usageID, endpointID)
      + if Matches(last, productIDs, usageID, endpointID) then [last.path] else []
  }

  /** Every device of a known product is taken once, however often its product is listed. */
  method MatchDevices(infos: seq<DeviceInfo>, productIDs: seq<int>, usageID: int, endpointID: int) returns (devices: seq<string>)
    ensures devices == Matching(infos, productIDs, usageID, endpointID)
  {
    devices := [];
    for i := 0 to |infos|
      invariant devices == Matching(infos[..i], productIDs, usageID, endpointID)
    {
      var found := false;
      for j := 0 to |productIDs|
        invariant !found && !Matches(infos[i], productIDs[..j], usageID, endpointID)
      {
        if infos[i].productID == productIDs[j] && (infos[i].usagePage == usageID || infos[i].iface == endpointID) {
          found := true;
          break;
        }
      }
      assert productIDs[..|productIDs|] == productIDs;
      assert found <==> Matches(infos[i], productIDs, usageID, endpointID);
      assert infos[..i + 1][..i] == infos[..i];
      if found { devices := devices + [infos[i].path]; }
    }
    assert infos[..|infos|] == infos;
  }

  // ---- The new list of wallets -------------------------------------------------------------------------

  /** A wallet object: its URL, and which object it is. */
  datatype Wallet = Wallet(url: string, id: nat)

  /** Drops wallets in front of the device as long as their status is a failure. */
  function DropStale(ws: seq<Wallet>, failed: set<nat>, d: string): seq<Wallet> {
    if ws == [] || !Less(ws[0].url, d) || ws[0].id !in failed then ws else DropStale(ws[1..], failed, d)
  }

  /** The list made of the known wallets and the devices; new wallets are numbered from `next`. */
  function Merge(ws: seq<Wallet>, failed: set<nat>, ds: seq<string>, next: nat): seq<Wallet>
    decreases |ds|
  {
    if ds == [] then []
    else
      var rest := DropStale(ws, failed, ds[0]);
      if rest == [] || Less(ds[0], rest[0].url) then [Wallet(ds[0], next)] + Merge(rest, failed, ds[1..], next + 1)
      else if rest[0].url == ds[0] then [rest[0]] + Merge(rest[1..], failed, ds[1..], next)
      else Merge(rest, failed, ds[1..], next)
  }

  function NextAfter(ws: seq<Wallet>, failed: set<nat>, ds: seq<string>, next: nat): nat
    decreases |ds|
  {
    if ds == [] then next
    else
      var rest := DropStale(ws, failed, ds[0]);
      if rest == [] || Less(ds[0], rest[0].url) then NextAfter(rest, failed, ds[1..], next + 1)
      else if rest[0].url == ds[0] then NextAfter(rest[1..], failed, ds[1..], next)
      else NextAfter(rest, failed, ds[1..], next)
  }

  class Hub {
    var wallets: seq<Wallet>
    var next: nat

    /** Every wallet in the list is an object of its own, and older than the next one. */
    ghost predicate Valid()
      reads this
    {
      Older(wallets, next)
    }

    constructor ()
      ensures Valid() && wallets == [] && next == 0
    {
      wallets, next := [], 0;
    }

    /** refreshWallets, from the devices found on; `failed` are the wallets whose status is a failure. */
    method Refresh(devices: seq<string>, failed: set<nat>)
      requires Valid()
      modifies this
      ensures Valid()
      ensures wallets == Merge(old(wallets), failed, devices, old(next))
      ensures next == NextAfter(old(wallets), failed, devices, old(next))
    {
      hide Older;
      var list: seq<Wallet> := [];
      for i := 0 to |devices|
        invariant list + Merge(wallets, failed, devices[i..], next) == Merge(old(wallets), failed, devices, old(next))
        invariant NextAfter(wallets, failed, devices[i..], next) == NextAfter(old(wallets), failed, devices, old(next))
      {
        hide Less;
        assert devices[i..][0] == devices[i] && devices[i..][1..] == devices[i + 1..];
        var more := Place(devices[i], failed, devices[i + 1..]);
        Regroup(list, more, Merge(wallets, failed, devices[i + 1..], next));
        list := list + more;
      }
      assert devices[|devices|..] == [];
      assert list + [] == list;
      assert list == Merge(old(wallets), failed, devices, old(next)) && next == NextAfter(old(wallets), failed, devices, old(next));
      wallets := list;
      MergeOlder(old(wallets), failed, devices, old(next));
    }

    /** One turn of the loop: what the device adds to the new list. */
    method Place(device: string, failed: set<nat>, ghost later: seq<string>) returns (more: seq<Wallet>)
      modifies this
      ensures more + Merge(wallets, failed, later, next) == Merge(old(wallets), failed, [device] + later, old(next))
      ensures NextAfter(wallets, failed, later, next) == NextAfter(old(wallets), failed, [device] + later, old(next))
    {
      hide Less;
      assert ([device] + later)[1..] == later;
      DropFront(device, failed);
      hide DropStale;
      more := [];
      if |wallets| == 0 || Less(device, wallets[0].url) {
        more := [Wallet(device, next)];
        next := next + 1;
      } else if wallets[0].url == device {
        more := [wallets[0]];
        wallets := wallets[1..];
      }
    }

    /** The inner loop. */
    method DropFront(device: string, failed: set<nat>)
      modifies this`wallets
      ensures wallets == DropStale(old(wallets), failed, device)
    {
      while |wallets| > 0
        invariant DropStale(wallets, failed, device) == DropStale(old(wallets), failed, device)
        decreases |wallets|
      {
        hide Less;
        if !Less(wallets[0].url, device) || wallets[0].id !in failed { break; }
        wallets := wallets[1..];
      }
    }
  }

  lemma Regroup(a: seq<Wallet>, b: seq<Wallet>, c: seq<Wallet>)
    ensures a + (b + c) == (a + b) + c
  {
  }

  /** Different objects, all numbered below `next`. */
  predicate Older(ws: seq<Wallet>, next: nat) {
    && (forall i :: 0 <= i < |ws| ==> ws[i].id < next)
    && (forall i, j :: 0 <= i < j < |ws| ==> ws[i].id != ws[j].id)
  }

  // ---- One device ---------------------------------------------------------------------------------------

  predicate Ascending(urls: seq<string>) {
    forall i, j :: 0 <= i < j < |urls| ==> Less(urls[i], urls[j])
  }

  function Urls(ws: seq<Wallet>): seq<string> {
    seq(|ws|, i requires 0 <= i < |ws| => ws[i].url)
  }

  /** Only failed wallets in front of the device are dropped, and in order. */
  lemma {:induction false} DropStaleIs(ws: seq<Wallet>, failed: set<nat>, d: string) returns (k: nat)
    ensures k <= |ws| && DropStale(ws, failed, d) == ws[k..]
    ensures forall i :: 0 <= i < k ==> ws[i].id in failed && Less(ws[i].url, d)
    ensures k < |ws| ==> !Less(ws[k].url, d) || ws[k].id !in failed
  {
    hide Less;
    if ws == [] || !Less(ws[0].url, d) || ws[0].id !in failed {
      k := 0;
    } else {
      var j := DropStaleIs(ws[1..], failed, d);
      k := j + 1;
      assert ws[1..][j..] == ws[k..];
      assert forall i :: 1 <= i < k ==> ws[i] == ws[1..][i - 1];
    }
  }

  /** What is left after a device, and whether the device found a place. */
  function Rest(ws: seq<Wallet>, failed: set<nat>, d: string): seq<Wallet> {
    var rest := DropStale(ws, failed, d);
    if rest != [] && rest[0].url == d then rest[1..] else rest
  }

  predicate Placed(ws: seq<Wallet>, failed: set<nat>, d: string) {
    var rest := DropStale(ws, failed, d);
    rest == [] || !Less(rest[0].url, d)
  }

  /** The device finds its own wallet. */
  predicate Known(ws: seq<Wallet>, failed: set<nat>, d: string) {
    var rest := DropStale(ws, failed, d);
    rest != [] && rest[0].url == d
  }

  /** The number the next new wallet will have. */
  function Counted(ws: seq<Wallet>, failed: set<nat>, d: string, next: nat): nat {
    if Placed(ws, failed, d) && !Known(ws, failed, d) then next + 1 else next
  }

  lemma MergeStep(ws: seq<Wallet>, failed: set<nat>, ds: seq<string>, next: nat)
    requires ds != []
    ensures var d := ds[0];
      var tail := Merge(Rest(ws, failed, d), failed, ds[1..], Counted(ws, failed, d, next));
      Merge(ws, failed, ds, next) ==
        if !Placed(ws, failed, d) then tail
        else if Known(ws, failed, d) then [DropStale(ws, failed, d)[0]] + tail
        else [Wallet(d, next)] + tail
  {
    hide DropStale;
    var rest := DropStale(ws, failed, ds[0]);
    if rest != [] {
      Total(rest[0].url, ds[0]);
      if Less(rest[0].url, ds[0]) { Asymmetric(rest[0].url, ds[0]); }
      if Less(ds[0], rest[0].url) { Asymmetric(ds[0], rest[0].url); }
    }
  }

  /** The wallets left are the ones behind those dropped or taken. */
  lemma RestIs(ws: seq<Wallet>, failed: set<nat>, d: string) returns (k: nat)
    ensures k <= |ws| && Rest(ws, failed, d) == ws[k..]
    ensures forall i :: 0 <= i < k ==> ws[i].url == d || (ws[i].id in failed && Less(ws[i].url, d))
    ensures Known(ws, failed, d) ==> k > 0 && DropStale(ws, failed, d)[0] == ws[k - 1]
    ensures !Known(ws, failed, d) ==> forall i :: 0 <= i < k ==> Less(ws[i].url, d)
    ensures !Known(ws, failed, d) && Placed(ws, failed, d) && k < |ws| ==> Less(d, ws[k].url)
    ensures !Placed(ws, failed, d) ==> k < |ws| && Less(ws[k].url, d) && ws[k].id !in failed
    ensures Ascending(Urls(ws)) ==> Ascending(Urls(Rest(ws, failed, d)))
    ensures Ascending(Urls(ws)) && Placed(ws, failed, d) ==> forall i :: k <= i < |ws| ==> Less(d, ws[i].url)
  {
    hide Less, DropStale;
    var j := DropStaleIs(ws, failed, d);
    k := if j < |ws| && ws[j].url == d then j + 1 else j;
    assert Urls(ws)[k..] == Urls(ws[k..]);
    if j < |ws| {
      assert ws[j..][0] == ws[j] && ws[j..][1..] == ws[j + 1..];
      Total(ws[j].url, d);
      if Less(ws[j].url, d) { Asymmetric(ws[j].url, d); }
      forall i | k <= i < |ws| && Placed(ws, failed, d) && Ascending(Urls(ws)) ensures Less(d, ws[i].url) { AllAbove(ws, j, i, d); }
    }
  }

  lemma AllAbove(ws: seq<Wallet>, j: nat, i: nat, d: string)
    requires Ascending(Urls(ws)) && j <= i < |ws| && (ws[j].url == d ==> j < i) && (ws[j].url == d || Less(d, ws[j].url))
    ensures Less(d, ws[i].url)
  {
    hide Less;
    if j < i {
      assert Urls(ws)[j] == ws[j].url && Urls(ws)[i] == ws[i].url;
      if ws[j].url != d { Transitive(d, ws[j].url, ws[i].url); }
    }
  }

  // ---- What the list is, for devices in any order ------------------------------------------------------

  /** How many devices are enumerated before the first that is not below `u`. */
  function Below(u: string, ds: seq<string>): (k: nat)
    ensures k <= |ds| && (k < |ds| ==> !Less(ds[k], u))
  {
    if ds == [] || !Less(ds[0], u) then 0 else 1 + Below(u, ds[1..])
  }

  /** Wallet after wallet: the first device not below the wallet is its own, or the wallet has failed. */
  predicate Meets(ws: seq<Wallet>, failed: set<nat>, ds: seq<string>)
    decreases |ws|
  {
    if ws == [] then true
    else
      var k := Below(ws[0].url, ds);
      if k == |ds| then true
      else if ds[k] == ws[0].url then Meets(ws[1..], failed, ds[k + 1..])
      else ws[0].id in failed && Meets(ws[1..], failed, ds[k..])
  }

  lemma {:induction false} MeetStep(ws: seq<Wallet>, failed: set<nat>, ds: seq<string>)
    requires ds != []
    ensures Meets(ws, failed, ds) <==> Placed(ws, failed, ds[0]) && Meets(Rest(ws, failed, ds[0]), failed, ds[1..])
    decreases |ws|
  {
    hide Less;
    if ws != [] {
      var u, d := ws[0].url, ds[0];
      Total(u, d);
      if Less(d, u) {
        Asymmetric(d, u);
        var k := Below(u, ds);
        assert k == 1 + Below(u, ds[1..]);
        assert ds[1..][k - 1..] == ds[k..];
        if k < |ds| { assert ds[1..][k - 1] == ds[k] && ds[1..][k..] == ds[k + 1..]; }
      } else if u == d {
        NotBelowItself(d);
        assert Below(u, ds) == 0;
      } else {
        Asymmetric(u, d);
        assert Below(u, ds) == 0 && ds[0..] == ds;
        if ws[0].id in failed { MeetStep(ws[1..], failed, ds); }
      }
    }
  }

  lemma NotBelowItself(d: string)
    ensures !Less(d, d)
  {
    if Less(d, d) { Asymmetric(d, d); }
  }

  /** No working wallet stands before a device without having been met among the devices before that. */
  ghost predicate NoneInTheWay(ws: seq<Wallet>, failed: set<nat>, ds: seq<string>) {
    forall i, w :: 0 <= i < |ds| && w in ws && Less(w.url, ds[i]) && w.url !in ds[..i] ==> w.id in failed
  }

  lemma {:induction false} MergeShort(ws: seq<Wallet>, failed: set<nat>, ds: seq<string>, next: nat)
    ensures |Merge(ws, failed, ds, next)| <= |ds|
    decreases |ds|
  {
    hide Less, DropStale, Rest, Placed, Known, Counted;
    if ds != [] {
      MergeStep(ws, failed, ds, next);
      MergeShort(Rest(ws, failed, ds[0]), failed, ds[1..], Counted(ws, failed, ds[0], next));
    }
  }

  lemma WayStep(ws: seq<Wallet>, failed: set<nat>, ds: seq<string>)
    requires ds != [] && Ascending(Urls(ws))
    ensures NoneInTheWay(ws, failed, ds) <==>
      Placed(ws, failed, ds[0]) && NoneInTheWay(Rest(ws, failed, ds[0]), failed, ds[1..])
  {
    hide Less, Rest, Placed, DropStale, Known;
    var d := ds[0];
    var k := RestIs(ws, failed, d);
    if !Placed(ws, failed, d) {
      assert ws[k] in ws && ws[k].url !in ds[..0];
    } else if NoneInTheWay(ws, failed, ds) {
      forall i, w | 0 <= i < |ds[1..]| && w in ws[k..] && Less(w.url, ds[1..][i]) && w.url !in ds[1..][..i] ensures w.id in failed {
        var j :| k <= j < |ws| && ws[j] == w;
        Asymmetric(d, w.url);
        MetBefore(ds, i, w.url);
      }
    }
    if Placed(ws, failed, d) && NoneInTheWay(ws[k..], failed, ds[1..]) {
      forall i, w | 0 <= i < |ds| && w in ws && Less(w.url, ds[i]) && w.url !in ds[..i] ensures w.id in failed {
        var j :| 0 <= j < |ws| && ws[j] == w;
        if j >= k {
          assert w == ws[k..][j - k];
          if i == 0 {
            Asymmetric(d, w.url);
          } else {
            MetBefore(ds, i - 1, w.url);
            assert ds[1..][i - 1] == ds[i];
          }
        } else if i > 0 {
          assert ds[..i][0] == d;
        } else {
          Asymmetric(w.url, d);
        }
      }
    }
  }

  lemma MetBefore(ds: seq<string>, i: nat, u: string)
    requires i < |ds| - 1
    ensures u in ds[..i + 1] <==> u == ds[0] || u in ds[1..][..i]
  {
    assert ds[..i + 1] == [ds[0]] + ds[1..][..i];
  }

  /** For any list and devices enumerated in any order: after a refresh the wallets are exactly the devices,
      if and only if every wallet, in the order of the list, meets its device or has failed before one
      beyond it comes. */
  lemma {:induction false} RefreshedExactly(ws: seq<Wallet>, failed: set<nat>, ds: seq<string>, next: nat)
    ensures Urls(Merge(ws, failed, ds, next)) == ds <==> Meets(ws, failed, ds)
    decreases |ds|
  {
    hide Less, Rest, Placed, DropStale, Known, Counted, Meets;
    if ds == [] {
      NothingToRefresh(ws, failed, next);
    } else {
      hide Merge;
      var d := ds[0];
      var n := Counted(ws, failed, d, next);
      RefreshedExactly(Rest(ws, failed, d), failed, ds[1..], n);
      MeetStep(ws, failed, ds);
      MergeStep(ws, failed, ds, next);
      MergeShort(Rest(ws, failed, d), failed, ds[1..], n);
      HeadUrl(ws, failed, d);
      var m, tail := Merge(ws, failed, ds, next), Merge(Rest(ws, failed, d), failed, ds[1..], n);
      if Placed(ws, failed, d) {
        assert m[1..] == tail && m[0].url == d;
        assert Urls(m) == [d] + Urls(tail) && Urls(m)[1..] == Urls(tail) && ds == [d] + ds[1..];
      }
    }
  }

  /** On a list in order this says that no working wallet stands before a device without having been met
      before it. */
  lemma {:induction false} MeetsInOrder(ws: seq<Wallet>, failed: set<nat>, ds: seq<string>)
    requires Ascending(Urls(ws))
    ensures Meets(ws, failed, ds) <==> NoneInTheWay(ws, failed, ds)
    decreases |ds|
  {
    hide Less, NoneInTheWay, Rest, Placed, DropStale, Known, Ascending, Meets;
    if ds == [] {
      NothingToRefresh(ws, failed, 0);
    } else {
      var k := RestIs(ws, failed, ds[0]);
      MeetStep(ws, failed, ds);
      WayStep(ws, failed, ds);
      MeetsInOrder(Rest(ws, failed, ds[0]), failed, ds[1..]);
    }
  }

  lemma HeadUrl(ws: seq<Wallet>, failed: set<nat>, d: string)
    ensures Known(ws, failed, d) ==> DropStale(ws, failed, d) != [] && DropStale(ws, failed, d)[0].url == d && Placed(ws, failed, d)
  {
    hide Less, DropStale;
    var rest := DropStale(ws, failed, d);
    if rest != [] && Less(rest[0].url, d) { Asymmetric(rest[0].url, d); }
  }

  lemma NothingToRefresh(ws: seq<Wallet>, failed: set<nat>, next: nat)
    ensures Urls(Merge(ws, failed, [], next)) == [] && NoneInTheWay(ws, failed, []) && Meets(ws, failed, [])
  {
  }

  /** The first refresh lists every device. */
  lemma FirstRefreshComplete(failed: set<nat>, ds: seq<string>, next: nat)
    ensures Urls(Merge([], failed, ds, next)) == ds
  {
    hide Merge;
    RefreshedExactly([], failed, ds, next);
  }

  // ---- Order and identity, for any list and devices in any order -----------------------------------------

  /** `a` is `b` with some elements left out. */
  predicate Sublist(a: seq<string>, b: seq<string>)
    decreases |b|
  {
    if b == [] then a == []
    else (a != [] && a[0] == b[0] && Sublist(a[1..], b[1..])) || Sublist(a, b[1..])
  }

  /** The wallets stand in the order of the devices, one at most for each. */
  lemma {:induction false} RefreshedInOrder(ws: seq<Wallet>, failed: set<nat>, ds: seq<string>, next: nat)
    ensures Sublist(Urls(Merge(ws, failed, ds, next)), ds)
    decreases |ds|
  {
    hide Less, DropStale, Rest, Placed, Known, Counted;
    if ds != [] {
      hide Merge;
      var d := ds[0];
      MergeStep(ws, failed, ds, next);
      HeadUrl(ws, failed, d);
      var tail := Merge(Rest(ws, failed, d), failed, ds[1..], Counted(ws, failed, d, next));
      RefreshedInOrder(Rest(ws, failed, d), failed, ds[1..], Counted(ws, failed, d, next));
      var m := Merge(ws, failed, ds, next);
      if Placed(ws, failed, d) { assert m[0].url == d && m[1..] == tail && Urls(m)[1..] == Urls(tail); }
    }
  }

  lemma {:induction false} SublistAscending(a: seq<string>, b: seq<string>)
    requires Sublist(a, b) && Ascending(b)
    ensures Ascending(a) && forall x :: x in a ==> x in b
    decreases |b|
  {
    hide Less;
    if b != [] {
      assert Ascending(b[1..]);
      if a != [] && a[0] == b[0] && Sublist(a[1..], b[1..]) {
        SublistAscending(a[1..], b[1..]);
        assert a == [a[0]] + a[1..] && b == [b[0]] + b[1..];
        forall i, j | 0 <= i < j < |a| ensures Less(a[i], a[j]) {
          assert a[j] == a[1..][j - 1];
          if i > 0 { assert a[i] == a[1..][i - 1]; } else { assert a[j] in b[1..]; }
        }
      } else {
        SublistAscending(a, b[1..]);
      }
    }
  }

  /** So the list is in order whenever the devices are. */
  lemma RefreshedAscending(ws: seq<Wallet>, failed: set<nat>, ds: seq<string>, next: nat)
    requires Ascending(ds)
    ensures Ascending(Urls(Merge(ws, failed, ds, next)))
  {
    hide Ascending, Merge, Sublist;
    RefreshedInOrder(ws, failed, ds, next);
    SublistAscending(Urls(Merge(ws, failed, ds, next)), ds);
  }

  /** Device `i` came after one that takes the wallet of its URL away: the same device, or one behind it
      when the wallet has failed. */
  predicate TakenBefore(w: Wallet, failed: set<nat>, ds: seq<string>, i: nat)
    requires i <= |ds|
  {
    exists j :: 0 <= j < i && (ds[j] == w.url || (w.id in failed && Less(w.url, ds[j])))
  }

  /** Wallet `p` stands behind one whose URL is beyond its own. */
  predicate Behind(ws: seq<Wallet>, p: nat)
    requires p < |ws|
  {
    exists q :: 0 <= q < p && Less(ws[p].url, ws[q].url)
  }

  /** Where entry `e` of the new list comes from: it is a known wallet, or a new one for device `i`; and then
      every known wallet of that device was taken away at an earlier device, or stands behind one beyond it. */
  ghost predicate ComesFrom(e: Wallet, ws: seq<Wallet>, failed: set<nat>, ds: seq<string>, next: nat, i: nat) {
    && i < |ds| && ds[i] == e.url
    && (e in ws || (e.id >= next && forall p :: 0 <= p < |ws| && ws[p].url == e.url ==> TakenBefore(ws[p], failed, ds, i) || Behind(ws, p)))
  }

  /** For any list and devices in any order. */
  lemma {:induction false} KeptOrNew(ws: seq<Wallet>, failed: set<nat>, ds: seq<string>, next: nat, e: Wallet) returns (i: nat)
    requires e in Merge(ws, failed, ds, next)
    ensures ComesFrom(e, ws, failed, ds, next, i)
    decreases |ds|
  {
    hide Less, Rest, Placed, Known, DropStale, ComesFrom;
    var d := ds[0];
    MergeStep(ws, failed, ds, next);
    hide Merge;
    var k := RestIs(ws, failed, d);
    var n := Counted(ws, failed, d, next);
    if e in Merge(Rest(ws, failed, d), failed, ds[1..], n) {
      var j := KeptOrNew(Rest(ws, failed, d), failed, ds[1..], n, e);
      i := j + 1;
      LaterComes(e, ws, failed, ds, next, n, j, k);
    } else {
      i := 0;
      HeadUrl(ws, failed, d);
      HeadComes(e, ws, failed, ds, next, k);
    }
  }

  lemma LaterComes(e: Wallet, ws: seq<Wallet>, failed: set<nat>, ds: seq<string>, next: nat, n: nat, j: nat, k: nat)
    requires ds != [] && k <= |ws| && n >= next && ComesFrom(e, ws[k..], failed, ds[1..], n, j)
    requires forall i :: 0 <= i < k ==> ws[i].url == ds[0] || (ws[i].id in failed && Less(ws[i].url, ds[0]))
    ensures ComesFrom(e, ws, failed, ds, next, j + 1)
  {
    hide Less;
    assert ds[1..][j] == ds[j + 1];
    if e !in ws {
      assert e !in ws[k..];
      forall p | 0 <= p < |ws| && ws[p].url == e.url ensures TakenBefore(ws[p], failed, ds, j + 1) || Behind(ws, p) {
        if p < k {
          assert ds[0] == ws[p].url || (ws[p].id in failed && Less(ws[p].url, ds[0]));
        } else {
          LaterFate(ws, failed, ds, j, k, p);
        }
      }
    }
  }

  lemma LaterFate(ws: seq<Wallet>, failed: set<nat>, ds: seq<string>, j: nat, k: nat, p: nat)
    requires ds != [] && j <= |ds[1..]| && k <= p < |ws|
    requires TakenBefore(ws[k..][p - k], failed, ds[1..], j) || Behind(ws[k..], p - k)
    ensures TakenBefore(ws[p], failed, ds, j + 1) || Behind(ws, p)
  {
    hide Less;
    assert ws[k..][p - k] == ws[p];
    if Behind(ws[k..], p - k) {
      var q :| 0 <= q < p - k && Less(ws[k..][p - k].url, ws[k..][q].url);
      assert ws[k + q] == ws[k..][q];
    } else {
      var q :| 0 <= q < j && (ds[1..][q] == ws[p].url || (ws[p].id in failed && Less(ws[p].url, ds[1..][q])));
      assert ds[q + 1] == ds[1..][q];
    }
  }

  lemma HeadComes(e: Wallet, ws: seq<Wallet>, failed: set<nat>, ds: seq<string>, next: nat, k: nat)
    requires ds != [] && k <= |ws|
    requires if Known(ws, failed, ds[0]) then k > 0 && e == ws[k - 1] && e.url == ds[0] else e == Wallet(ds[0], next)
    requires !Known(ws, failed, ds[0]) ==> (forall i :: 0 <= i < k ==> Less(ws[i].url, ds[0])) && (k < |ws| ==> Less(ds[0], ws[k].url))
    ensures ComesFrom(e, ws, failed, ds, next, 0)
  {
    hide Less, Known;
    if !Known(ws, failed, ds[0]) {
      forall p | 0 <= p < |ws| && ws[p].url == ds[0] ensures Behind(ws, p) {
        NotBelowItself(ds[0]);
        assert k < p;
        assert Less(ws[p].url, ws[k].url);
      }
    }
  }

  // ---- New wallets are new objects ---------------------------------------------------------------------------

  lemma {:induction false} MergeIds(ws: seq<Wallet>, failed: set<nat>, ds: seq<string>, next: nat, e: Wallet)
    ensures NextAfter(ws, failed, ds, next) >= next
    ensures e in Merge(ws, failed, ds, next) ==> e in ws || next <= e.id < NextAfter(ws, failed, ds, next)
    decreases |ds|
  {
    hide Less;
    if ds != [] {
      var rest := DropStale(ws, failed, ds[0]);
      var k := DropStaleIs(ws, failed, ds[0]);
      hide DropStale;
      if rest == [] || Less(ds[0], rest[0].url) {
        MergeIds(rest, failed, ds[1..], next + 1, e);
      } else if rest[0].url == ds[0] {
        MergeIds(rest[1..], failed, ds[1..], next, e);
      } else {
        MergeIds(rest, failed, ds[1..], next, e);
      }
    }
  }

  lemma OlderSuffix(ws: seq<Wallet>, k: nat, next: nat)
    requires Older(ws, next) && k <= |ws|
    ensures Older(ws[k..], next) && Older(ws[k..], next + 1)
    ensures k < |ws| ==> ws[k].id < next && Older(ws[k..][1..], next) && forall x :: x in ws[k..][1..] ==> x.id != ws[k].id
    ensures forall x :: x in ws[k..] ==> x.id != next
  {
  }

  /** A refresh keeps the wallets different objects, older than the next one. */
  lemma {:induction false} MergeOlder(ws: seq<Wallet>, failed: set<nat>, ds: seq<string>, next: nat)
    requires Older(ws, next)
    ensures Older(Merge(ws, failed, ds, next), NextAfter(ws, failed, ds, next))
    decreases |ds|
  {
    if ds != [] {
      hide Less;
      var rest := DropStale(ws, failed, ds[0]);
      var k := DropStaleIs(ws, failed, ds[0]);
      OlderSuffix(ws, k, next);
      hide DropStale, Older;
      if rest == [] || Less(ds[0], rest[0].url) {
        MergeOlder(rest, failed, ds[1..], next + 1);
        Prepend(Wallet(ds[0], next), rest, failed, ds[1..], next + 1);
      } else if rest[0].url == ds[0] {
        MergeOlder(rest[1..], failed, ds[1..], next);
        Prepend(rest[0], rest[1..], failed, ds[1..], next);
      } else {
        MergeOlder(rest, failed, ds[1..], next);
      }
    }
  }

  lemma Prepend(w: Wallet, ws: seq<Wallet>, failed: set<nat>, ds: seq<string>, next: nat)
    requires w.id < next && (forall x :: x in ws ==> x.id != w.id)
    requires Older(Merge(ws, failed, ds, next), NextAfter(ws, failed, ds, next))
    ensures Older([w] + Merge(ws, failed, ds, next), NextAfter(ws, failed, ds, next))
  {
    hide Merge, NextAfter;
    var tail := Merge(ws, failed, ds, next);
    MergeIds(ws, failed, ds, next, w);
    forall i | 0 <= i < |tail| ensures tail[i].id != w.id { MergeIds(ws, failed, ds, next, tail[i]); }
  }

  /** One working wallet without a device hides the devices behind it. */
  lemma WorkingWalletHides()
    ensures Merge([Wallet("a", 0)], {}, ["b"], 1) == []
  {
    assert Less("a", "b");
    Asymmetric("a", "b");
  }

  /** And two working wallets whose devices are enumerated the other way round lose one. */
  lemma OutOfOrderHides()
    ensures Merge([Wallet("a", 0), Wallet("b", 1)], {}, ["b", "a"], 2) == [Wallet("a", 0)]
  {
    var ws, ds := [Wallet("a", 0), Wallet("b", 1)], ["b", "a"];
    assert Less("a", "b");
    Asymmetric("a", "b");
    assert ds[1..] == ["a"] && ["a"][1..] == [];
    assert !Less("a", "a") by { if Less("a", "a") { Asymmetric("a", "a"); } }
    assert Merge(ws, {}, ["a"], 2) == [ws[0]] + Merge(ws[1..], {}, [], 2);
  }

  /** A list left out of order replaces a working wallet by a new one, although its device is there. */
  lemma OutOfOrderReplaces()
    ensures Merge([Wallet("b", 0), Wallet("a", 1)], {}, ["a", "b"], 2) == [Wallet("a", 2), Wallet("b", 0)]
  {
    var ws, ds := [Wallet("b", 0), Wallet("a", 1)], ["a", "b"];
    assert Less("a", "b");
    Asymmetric("a", "b");
    NotBelowItself("b");
    assert ds[1..] == ["b"] && ["b"][1..] == [];
    assert Merge(ws, {}, ["b"], 3) == [ws[0]] + Merge(ws[1..], {}, [], 3);
    assert Merge(ws, {}, ds, 2) == [Wallet("a", 2)] + Merge(ws, {}, ["b"], 3);
  }
}
