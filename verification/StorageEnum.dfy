/** Device enumeration of the U-Boot API: a resumable iterator over groups of storage devices. */
module StorageEnum {

  datatype Option<T> = None | Some(value: T)

  /** A device descriptor, named by its address. */
  type Device = nat

  /** The storage groups, each a table of device slots, the devices that are active, and the network
    * device, if any.  A group that is not configured has no slots.
    */
  datatype Registry = Registry(groups: seq<seq<Option<Device>>>, active: set<Device>, net: Option<Device>)

  /** get_dev: the device in a slot. */
  function GetDev(r: Registry, group: nat, slot: nat): Option<Device>
    requires group < |r.groups|
  {
    if slot < |r.groups[group]| then r.groups[group][slot] else None
  }

  ghost predicate InSlot(r: Registry, d: Device, g: nat, s: nat) {
    g < |r.groups| && s < |r.groups[g]| && r.groups[g][s] == Some(d)
  }

  ghost predicate InGroup(r: Registry, d: Device, g: nat) {
    exists s: nat :: InSlot(r, d, g, s)
  }

  /** No device sits in two slots, and the network device in none. */
  ghost predicate Distinct(r: Registry) {
    && (forall d, g, s, g', s' :: InSlot(r, d, g, s) && InSlot(r, d, g', s') ==> g == g' && s == s')
    && (r.net.Some? ==> forall g :: !InGroup(r, r.net.value, g))
  }

  /** What enumeration reports for a group: its first device, if that exists and is active. */
  ghost predicate Reports(r: Registry, g: nat)
    requires g < |r.groups|
  {
    GetDev(r, g, 0).Some? && GetDev(r, g, 0).value in r.active
  }

  /** The next group from `g` on that reports a device, or the number of groups. */
  ghost function NextGroup(r: Registry, g: nat): (n: nat)
    requires g <= |r.groups|
    ensures g <= n <= |r.groups|
    ensures n < |r.groups| ==> Reports(r, n)
    ensures forall k: nat :: g <= k < n ==> !Reports(r, k)
    decreases |r.groups| - g
  {
    if g == |r.groups| || Reports(r, g) then g else NextGroup(r, g + 1)
  }

  /** Whether dev_open_stor accepts a cookie. */
  ghost predicate Opens(r: Registry, d: Device) {
    d in r.active && exists g: nat :: InGroup(r, d, g)
  }

  class Api {
    const reg: Registry
    var started: seq<bool>
    var ended: seq<bool>
    var cookie: Option<Device>

    ghost predicate Valid()
      reads this
    {
      Distinct(reg) && |started| == |ended| == |reg.groups|
    }

    constructor (reg: Registry)
      requires Distinct(reg)
      ensures Valid() && this.reg == reg && cookie == None
    {
      this.reg := reg;
      started := seq(|reg.groups|, _ => false);
      ended := seq(|reg.groups|, _ => false);
      cookie := None;
    }

    /** dev_enum_reset */
    method EnumReset()
      requires Valid()
      modifies `started, `ended
      ensures Valid()
      ensures forall g :: 0 <= g < |reg.groups| ==> !started[g] && !ended[g]
    {
      started := seq(|reg.groups|, _ => false);
      ended := seq(|reg.groups|, _ => false);
    }

    /** dev_stor_type: the group a device belongs to, or the number of groups. */
    method StorType(d: Device) returns (g: nat)
      requires Valid()
      ensures g <= |reg.groups|
      ensures g < |reg.groups| ==> InGroup(reg, d, g)
      ensures g == |reg.groups| ==> forall k: nat :: !InGroup(reg, d, k)
    {
      g := 0;
      while g < |reg.groups|
        invariant g <= |reg.groups|
        invariant forall k: nat :: k < g ==> !InGroup(reg, d, k)
      {
        for s := 0 to |reg.groups[g]|
          invariant forall s': nat :: s' < s ==> !InSlot(reg, d, g, s')
        {
          if GetDev(reg, g, s) == Some(d) {
            assert InSlot(reg, d, g, s);
            return;
          }
        }
        g := g + 1;
      }
    }

    /** dev_stor_get: the first device of the group, or the one after the cookie.  A device that is
      * not active is left in the cookie but not reported as found.
      */
    method StorGet(group: nat, first: bool) returns (found: bool, more: bool)
      requires Valid() && group < |reg.groups| && (first || cookie.Some?)
      modifies `cookie
      ensures first ==> cookie == GetDev(reg, group, 0) && !more
      ensures found <==> cookie.Some? && cookie.value in reg.active
      ensures found ==> InGroup(reg, cookie.value, group)
      ensures !first && !InGroup(reg, old(cookie).value, group) ==> cookie == None && !more
      ensures forall s: nat :: !first && InSlot(reg, old(cookie).value, group, s) ==>
        cookie == GetDev(reg, group, s + 1) && (more <==> cookie.Some? && s + 2 < |reg.groups[group]|)
    {
      more, found := false, false;
      if first {
        cookie := GetDev(reg, group, 0);
        if cookie == None {
          return;
        }
        assert InSlot(reg, cookie.value, group, 0);
        found := true;
      } else {
        var i := 0;
        while i < |reg.groups[group]|
          invariant i <= |reg.groups[group]| && !found && !more && cookie == old(cookie)
          invariant forall s: nat :: s < i ==> !InSlot(reg, cookie.value, group, s)
        {
          if cookie == GetDev(reg, group, i) {
            assert InSlot(reg, cookie.value, group, i);
            i := i + 1;
            if i >= |reg.groups[group]| {
              cookie := None;
              break;
            }
            cookie := GetDev(reg, group, i);
            if cookie == None {
              return;
            }
            assert InSlot(reg, cookie.value, group, i);
            found := true;
            if i + 1 < |reg.groups[group]| {
              more := true;
            }
            break;
          }
          i := i + 1;
        }
      }
      if found {
        if cookie.value !in reg.active {
          found := false;
        }
      } else {
        cookie := None;
      }
    }

    /** The group starts afresh: nothing was enumerated yet, or the cookie belongs elsewhere. */
    ghost predicate Fresh(group: nat)
      requires Valid() && group < |reg.groups|
      reads this
    {
      cookie == None || (!ended[group] && !started[group] && !InGroup(reg, cookie.value, group))
    }

    /** dev_enum_stor: start with the first device, go on to the next, or refuse. */
    method EnumStor(group: nat) returns (found: bool)
      requires Valid() && group < |reg.groups|
      modifies `started, `ended, `cookie
      ensures Valid()
      ensures forall g: nat :: g < |reg.groups| && g != group ==>
        started[g] == old(started[g]) && ended[g] == old(ended[g])
      ensures found ==> cookie.Some? && cookie.value in reg.active && InGroup(reg, cookie.value, group)
      ensures old(cookie.Some? && ended[group]) ==>
        !found && cookie == old(cookie) && started == old(started) && ended == old(ended)
      ensures old(Fresh(group)) ==>
        cookie == GetDev(reg, group, 0) && found == Reports(reg, group) && started[group] && ended[group]
      ensures forall s: nat :: old(cookie.Some? && !ended[group]) && InSlot(reg, old(cookie).value, group, s) ==>
        && cookie == GetDev(reg, group, s + 1) && started == old(started)
        && (found <==> cookie.Some? && cookie.value in reg.active)
        && (ended[group] <==> cookie == None || s + 2 >= |reg.groups[group]|)
      ensures old(cookie.Some? && !ended[group] && started[group] && !InGroup(reg, cookie.value, group)) ==>
        !found && cookie == old(cookie) && started == old(started) && ended[group]
    {
      found := false;
      var more := false;
      if cookie == None {
        found, more := StorGet(group, true);
        started := started[group := true];
      } else {
        var type_ := StorType(cookie.value);
        if type_ == group {
          if ended[group] {
            return false;
          }
          found, more := StorGet(group, false);
        } else {
          if ended[group] {
            return false;
          }
          if !started[group] {
            started := started[group := true];
            found, more := StorGet(group, true);
          }
        }
      }
      ended := ended[group := !more];
    }

    /** Groups below `n` are done with, the others untouched. */
    ghost predicate DoneBelow(n: nat)
      requires Valid()
      reads this
    {
      && (forall g: nat :: g < |reg.groups| && g < n ==> started[g] && ended[g])
      && forall g: nat :: n <= g < |reg.groups| ==> !started[g] && !ended[g]
    }

    /** The cookie is what the last report left: nothing or the network device before the first
      * group, or the first device of the last group done.
      */
    ghost predicate Resumes(n: nat)
      requires Valid() && n <= |reg.groups|
      reads this
    {
      && DoneBelow(n)
      && (if n == 0 then cookie == reg.net else Reports(reg, n - 1) && cookie == GetDev(reg, n - 1, 0))
    }
  
    /** Within one scan, before group `i`: the cookie cannot belong to a later group. */
    ghost predicate Scanning(from: nat, i: nat)
      requires Valid() && from <= i <= |reg.groups|
      reads this
    {
      && DoneBelow(i)
      && (cookie.Some? ==> forall g: nat :: i <= g ==> !InGroup(reg, cookie.value, g))
      && NextGroup(reg, from) >= i
    }

    /** The enumeration is where a report left it, with group `n` next. */
    ghost predicate ResumesAt(n: nat)
      requires Valid()
      reads this
    {
      n <= |reg.groups| && Resumes(n)
    }

    /** dev_enum_storage: whatever the flags and the cookie are, a device it reports can be opened;
      * resumed where a report left off, it reports the first device of the next group that has an
      * active one.
      */
    method EnumStorage(ghost n: nat) returns (found: bool)
      requires Valid()
      modifies `started, `ended, `cookie
      ensures Valid()
      ensures found ==> cookie.Some? && Opens(reg, cookie.value)
      ensures old(ResumesAt(n)) ==> found == (NextGroup(reg, n) < |reg.groups|)
      ensures old(ResumesAt(n)) && found ==> ResumesAt(NextGroup(reg, n) + 1)
    {
      ghost var resumed := ResumesAt(n);
      if resumed {
        CookieIsBehind(n);
      }
      for i := 0 to |reg.groups|
        invariant Valid()
        invariant resumed && i < n ==> ResumesAt(n) && cookie == old(cookie)
        invariant resumed && i >= n ==> Scanning(n, i)
      {
        found := EnumStor(i);
        if resumed {
          if i < n {
            assert !found;
            if i + 1 == n {
              CookieIsBehind(n);
            }
          } else if Reports(reg, i) {
            assert NextGroup(reg, n) == i;
          } else {
            NextIsLater(reg, n, i);
            FirstIsInGroup(reg, i);
          }
        }
        if found {
          return;
        }
      }
      found := false;
    }

    /** The cookie of a resumed enumeration belongs to no group still to come. */
    lemma CookieIsBehind(n: nat)
      requires Valid() && n <= |reg.groups| && Resumes(n)
      ensures cookie.Some? ==> forall g: nat :: n <= g ==> !InGroup(reg, cookie.value, g)
      ensures n > 0 ==> cookie.Some?
    {
      if n > 0 {
        FirstIsInGroup(reg, n - 1);
      }
    }

    /** API_dev_enum: the network device first, then storage, then nothing.  Whatever cookie it is
      * given, it leaves none, the network device, or a storage device that can be opened.
      */
    method DevEnum(ghost n: nat)
      requires Valid()
      modifies `started, `ended, `cookie
      ensures Valid()
      ensures cookie == None || cookie == reg.net || Opens(reg, cookie.value)
      ensures old(cookie) == None && reg.net.Some? ==> cookie == reg.net && ResumesAt(0)
      ensures old(cookie == None || ResumesAt(n)) && (old(cookie) != None || reg.net == None) ==>
        var next := NextGroup(reg, if old(cookie) == None then 0 else n);
        if next < |reg.groups| then cookie == GetDev(reg, next, 0) && ResumesAt(next + 1) else cookie == None
    {
      ghost var from := n;
      if cookie == None {
        EnumReset();
        cookie := reg.net;
        from := 0;
        if cookie != None {
          return;
        }
      }
      var found := EnumStorage(from);
      if !found {
        cookie := None;
      }
    }

    /** dev_open_stor: whether the cookie names an active storage device. */
    method OpenStor(d: Device) returns (ok: bool)
      requires Valid()
      ensures ok <==> Opens(reg, d)
    {
      var type_ := StorType(d);
      if type_ == |reg.groups| {
        return false;
      }
      ok := StorIsValid(type_, d);
    }

    /** dev_stor_is_valid */
    method StorIsValid(group: nat, d: Device) returns (ok: bool)
      requires Valid() && group < |reg.groups|
      ensures ok <==> d in reg.active && InGroup(reg, d, group)
    {
      for s := 0 to |reg.groups[group]|
        invariant d in reg.active ==> forall s': nat :: s' < s ==> !InSlot(reg, d, group, s')
      {
        if GetDev(reg, group, s) == Some(d) {
          assert InSlot(reg, d, group, s);
          if d in reg.active {
            return true;
          }
        }
      }
      ok := false;
    }

    /** The rest of an enumeration, from the device now in the cookie until none is left. */
    method EnumerateRest(ghost n: nat) returns (devices: seq<Device>, calls: nat)
      requires Valid() && n <= |reg.groups| && cookie.Some? && Resumes(n)
      modifies `started, `ended, `cookie
      ensures Valid() && cookie == None && calls == |devices|
      ensures devices == [old(cookie).value] + Reported(reg, n)
      decreases |reg.groups| - n
    {
      devices, calls := [cookie.value], 1;
      ReportedNext(reg, n);
      DevEnum(n);
      if cookie.Some? {
        var rest, more := EnumerateRest(NextGroup(reg, n) + 1);
        devices, calls := devices + rest, calls + more;
      }
    }

    /** A client that enumerates from the start until no device is left. */
    method EnumerateAll() returns (devices: seq<Device>, calls: nat)
      requires Valid() && cookie == None
      modifies `started, `ended, `cookie
      ensures Valid() && cookie == None
      ensures devices == (if reg.net.Some? then [reg.net.value] else []) + Reported(reg, 0)
      ensures calls == |devices| + 1 <= |reg.groups| + 2
    {
      ReportedNext(reg, 0);
      ReportedCount(reg, 0);
      DevEnum(0);
      devices, calls := [], 1;
      if cookie.Some? {
        devices, calls := EnumerateRest(if reg.net.Some? then 0 else NextGroup(reg, 0) + 1);
        calls := calls + 1;
      }
    }
  }

  lemma {:induction false} NextIsLater(r: Registry, g: nat, i: nat)
    requires g <= i < |r.groups| && NextGroup(r, g) >= i && !Reports(r, i)
    ensures NextGroup(r, g) >= i + 1
  {
  }

  lemma FirstIsInGroup(r: Registry, g: nat)
    requires Distinct(r) && g < |r.groups|
    ensures GetDev(r, g, 0).Some? ==> forall k: nat :: InGroup(r, GetDev(r, g, 0).value, k) <==> k == g
  {
    if GetDev(r, g, 0).Some? {
      assert InSlot(r, GetDev(r, g, 0).value, g, 0);
    }
  }

  /** The storage devices reported from group `g` on. */
  ghost function Reported(r: Registry, g: nat): seq<Device>
    requires g <= |r.groups|
    decreases |r.groups| - g
  {
    if g == |r.groups| then []
    else (if Reports(r, g) then [GetDev(r, g, 0).value] else []) + Reported(r, g + 1)
  }

  lemma {:induction false} ReportedNext(r: Registry, g: nat)
    requires g <= |r.groups|
    ensures var n := NextGroup(r, g);
      Reported(r, g) == if n < |r.groups| then [GetDev(r, n, 0).value] + Reported(r, n + 1) else []
    decreases |r.groups| - g
  {
    if g < |r.groups| {
      if !Reports(r, g) {
        ReportedNext(r, g + 1);
        assert Reported(r, g) == Reported(r, g + 1) && NextGroup(r, g) == NextGroup(r, g + 1);
      }
    }
  }

  lemma {:induction false} ReportedCount(r: Registry, g: nat)
    requires g <= |r.groups|
    ensures |Reported(r, g)| <= |r.groups| - g
    decreases |r.groups| - g
  {
    if g < |r.groups| {
      ReportedCount(r, g + 1);
    }
  }

  /** What is reported: exactly the active devices that come first in their group. */
  lemma {:induction false} ReportedMembers(r: Registry, g: nat, d: Device)
    requires g <= |r.groups|
    ensures d in Reported(r, g) <==> exists k: nat :: g <= k < |r.groups| && Reports(r, k) && GetDev(r, k, 0).value == d
    decreases |r.groups| - g
  {
    if g < |r.groups| {
      ReportedMembers(r, g + 1, d);
      if d in Reported(r, g) && Reports(r, g) && GetDev(r, g, 0).value == d {
        assert g <= g < |r.groups| && Reports(r, g) && GetDev(r, g, 0).value == d;
      }
    }
  }

  /** A device that is reported belongs to one group only, from which it is the first. */
  lemma ReportedGroup(r: Registry, g: nat, d: Device)
    requires Distinct(r) && g <= |r.groups| && d in Reported(r, g)
    ensures forall k: nat :: InGroup(r, d, k) ==> g <= k
    ensures exists k: nat :: InGroup(r, d, k)
    ensures d in r.active
  {
    ReportedMembers(r, g, d);
    var k: nat :| g <= k < |r.groups| && Reports(r, k) && GetDev(r, k, 0).value == d;
    FirstIsInGroup(r, k);
    assert InGroup(r, d, k);
  }

  /** Groups are reported in strictly increasing order, hence no device twice. */
  lemma {:induction false} ReportedInOrder(r: Registry, g: nat, i: nat, j: nat, a: nat, b: nat)
    requires Distinct(r) && g <= |r.groups| && i < j < |Reported(r, g)|
    requires InGroup(r, Reported(r, g)[i], a) && InGroup(r, Reported(r, g)[j], b)
    ensures a < b && Reported(r, g)[i] != Reported(r, g)[j]
    decreases |r.groups| - g
  {
    var rest := Reported(r, g + 1);
    if !Reports(r, g) {
      ReportedInOrder(r, g + 1, i, j, a, b);
    } else if i > 0 {
      ReportedInOrder(r, g + 1, i - 1, j - 1, a, b);
    } else {
      assert Reported(r, g)[j] == rest[j - 1];
      ReportedGroup(r, g + 1, rest[j - 1]);
      FirstIsInGroup(r, g);
    }
  }

  /** The enumeration reports every active storage device exactly if each of them is the first of
    * its group: the hint that a group has more devices is never given for a first device.
    */
  lemma CompleteIff(r: Registry)
    requires Distinct(r)
    ensures (forall d, g: nat :: InGroup(r, d, g) && d in r.active ==> d in Reported(r, 0)) <==>
            (forall d, g: nat, s: nat :: InSlot(r, d, g, s) && d in r.active ==> s == 0)
  {
    forall d, g: nat, s: nat | InSlot(r, d, g, s) && d in r.active
      ensures InGroup(r, d, g) && (d in Reported(r, 0) <==> s == 0)
    {
      ReportedIffFirst(r, d, g, s);
    }
    if forall d, g: nat, s: nat :: InSlot(r, d, g, s) && d in r.active ==> s == 0 {
      forall d, g: nat | InGroup(r, d, g) && d in r.active
        ensures d in Reported(r, 0)
      {
        var s: nat :| InSlot(r, d, g, s);
      }
    }
  }

  lemma ReportedIffFirst(r: Registry, d: Device, g: nat, s: nat)
    requires Distinct(r) && InSlot(r, d, g, s) && d in r.active
    ensures d in Reported(r, 0) <==> s == 0
  {
    ReportedMembers(r, 0, d);
    if s == 0 {
      assert Reports(r, g);
    } else if d in Reported(r, 0) {
      var k: nat :| k < |r.groups| && Reports(r, k) && GetDev(r, k, 0).value == d;
      assert InSlot(r, d, k, 0);
    }
  }
}
