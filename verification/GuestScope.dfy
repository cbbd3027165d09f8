/** Which hosts and guests a user may see (`lib/guest-scope.ts`). */
module GuestScope {
  import opened Text

  datatype Kind = Vm | Lxc

  datatype Guest = Guest(hostId: string, kind: Kind, vmid: nat)

  function KindName(kind: Kind): string {
    match kind
    case Vm => "vm"
    case Lxc => "lxc"
  }

  /** `${hostId}:${kind}:${vmid}` */
  function GuestKey(g: Guest): string {
    g.hostId + [':'] + KindName(g.kind) + [':'] + Numeral(g.vmid)
  }

  // ---------- the key names one guest ----------

  lemma LastPartUnique(a: string, b: string, a': string, b': string, c: char)
    requires c !in b && c !in b' && a + [c] + b == a' + [c] + b'
    ensures a == a' && b == b'
  {
    var s := a + [c] + b;
    assert s[|a|] == c && s[|a'|] == c;
    assert |a| == |a'|;
    assert a == s[..|a|] && b == s[|a| + 1..];
    assert a' == s[..|a'|] && b' == s[|a'| + 1..];
  }

  lemma KindsDiffer(j: Kind, k: Kind)
    ensures ':' !in KindName(j) && (KindName(j) == KindName(k) ==> j == k)
  {
    assert |KindName(Vm)| == 2 && |KindName(Lxc)| == 3;
  }

  /** Whatever the host ids hold, colons included, different guests have different keys. */
  lemma GuestKeyInjective(g: Guest, h: Guest)
    requires GuestKey(g) == GuestKey(h)
    ensures g == h
  {
    NumeralLacks(g.vmid, ':');
    NumeralLacks(h.vmid, ':');
    KindsDiffer(g.kind, h.kind);
    KindsDiffer(h.kind, g.kind);
    LastPartUnique(g.hostId + [':'] + KindName(g.kind), Numeral(g.vmid),
                   h.hostId + [':'] + KindName(h.kind), Numeral(h.vmid), ':');
    LastPartUnique(g.hostId, KindName(g.kind), h.hostId, KindName(h.kind), ':');
    NumeralInjective(g.vmid, h.vmid);
  }

  // ---------- access ----------

  /** Without a list everything of its kind is allowed. */
  datatype AccessScope = AccessScope(allowedHostIds: Option<seq<string>>, allowedGuests: Option<seq<Guest>>)

  predicate CanAccessHost(user: AccessScope, hostId: string) {
    user.allowedHostIds.Some? ==> hostId in user.allowedHostIds.value
  }

  predicate CanAccessGuest(user: AccessScope, g: Guest) {
    CanAccessHost(user, g.hostId) && (user.allowedGuests.Some? ==> g in user.allowedGuests.value)
  }

  /** The ids of the allowed guests of one host and kind. */
  function AllowedIds(guests: seq<Guest>, hostId: string, kind: Kind): set<nat> {
    set g | g in guests && g.hostId == hostId && g.kind == kind :: g.vmid
  }

  function Filter<T>(items: seq<T>, keep: T -> bool): seq<T> {
    if items == [] then []
    else (if keep(items[0]) then [items[0]] else []) + Filter(items[1..], keep)
  }

  /** `filterGuestsForUser`; `vmidOf` reads an item's id. */
  function FilterGuestsForUser<T>(user: AccessScope, hostId: string, kind: Kind, items: seq<T>, vmidOf: T -> nat)
    : seq<T>
  {
    if !CanAccessHost(user, hostId) then []
    else if user.allowedGuests.None? then items
    else
      var allowed := AllowedIds(user.allowedGuests.value, hostId, kind);
      Filter(items, item => vmidOf(item) in allowed)
  }

  lemma {:induction false} FilterAlike<T>(items: seq<T>, p: T -> bool, q: T -> bool)
    requires forall x :: x in items ==> p(x) == q(x)
    ensures Filter(items, p) == Filter(items, q)
  {
    if items != [] {
      assert items[0] in items;
      FilterAlike(items[1..], p, q);
    }
  }

  lemma {:induction false} FilterNone<T>(items: seq<T>, p: T -> bool)
    requires forall x :: x in items ==> !p(x)
    ensures Filter(items, p) == []
  {
    if items != [] {
      assert items[0] in items;
      FilterNone(items[1..], p);
    }
  }

  lemma {:induction false} FilterAll<T>(items: seq<T>, p: T -> bool)
    requires forall x :: x in items ==> p(x)
    ensures Filter(items, p) == items
  {
    if items != [] {
      assert items[0] in items;
      FilterAll(items[1..], p);
    }
  }

  lemma AllowedIdsAre(guests: seq<Guest>, hostId: string, kind: Kind, vmid: nat)
    ensures vmid in AllowedIds(guests, hostId, kind) <==> Guest(hostId, kind, vmid) in guests
  {
    if Guest(hostId, kind, vmid) in guests {
      assert Guest(hostId, kind, vmid).vmid == vmid;
    }
  }

  /** The list of a host shows exactly the guests a single check lets through. */
  lemma FilterIsPointwise<T>(user: AccessScope, hostId: string, kind: Kind, items: seq<T>, vmidOf: T -> nat)
    ensures FilterGuestsForUser(user, hostId, kind, items, vmidOf)
         == Filter(items, item => CanAccessGuest(user, Guest(hostId, kind, vmidOf(item))))
  {
    var can := (item: T) => CanAccessGuest(user, Guest(hostId, kind, vmidOf(item)));
    if !CanAccessHost(user, hostId) {
      FilterNone(items, can);
    } else if user.allowedGuests.None? {
      FilterAll(items, can);
    } else {
      var allowed := AllowedIds(user.allowedGuests.value, hostId, kind);
      var listed := (item: T) => vmidOf(item) in allowed;
      forall item | item in items
        ensures listed(item) == can(item)
      {
        AllowedIdsAre(user.allowedGuests.value, hostId, kind, vmidOf(item));
      }
      FilterAlike(items, listed, can);
    }
  }

  // ---------- the scope of a session ----------

  datatype HostGrant = HostGrant(hostId: string, permissions: seq<string>, override: bool)

  /** A stored grant; its kind is `None` when the stored text is neither "vm" nor "lxc". */
  datatype GuestGrant =
    GuestGrant(hostId: string, kind: Option<Kind>, vmid: nat, permissions: seq<string>, override: bool)

  /** The overrides by key; `None` where a grant leaves the role's permissions in force. */
  type Overrides = map<string, Option<seq<string>>>

  datatype Session =
    Session(scope: AccessScope, hostPermissions: Option<Overrides>, guestPermissions: Option<Overrides>)

  function GuestsOf(rows: seq<GuestGrant>): seq<Guest> {
    if rows == [] then []
    else
      var row := rows[|rows| - 1];
      GuestsOf(rows[..|rows| - 1]) + if row.kind.Some? then [Guest(row.hostId, row.kind.value, row.vmid)] else []
  }

  function HostIds(rows: seq<HostGrant>): seq<string> {
    seq(|rows|, i requires 0 <= i < |rows| => rows[i].hostId)
  }

  function GuestHostIds(guests: seq<Guest>): seq<string> {
    seq(|guests|, i requires 0 <= i < |guests| => guests[i].hostId)
  }

  function OverrideOf(permissions: seq<string>, override: bool): Option<seq<string>> {
    if override then Some(permissions) else None
  }

  function HostOverrides(rows: seq<HostGrant>): Overrides {
    if rows == [] then map[]
    else
      var row := rows[|rows| - 1];
      HostOverrides(rows[..|rows| - 1])[row.hostId := OverrideOf(row.permissions, row.override)]
  }

  function WithHosts(m: Overrides, ids: seq<string>): Overrides {
    if ids == [] then m
    else
      var id := ids[|ids| - 1];
      var early := WithHosts(m, ids[..|ids| - 1]);
      if id in early then early else early[id := None]
  }

  function GuestOverrides(rows: seq<GuestGrant>): Overrides {
    if rows == [] then map[]
    else
      var row := rows[|rows| - 1];
      var early := GuestOverrides(rows[..|rows| - 1]);
      if row.kind.None? then early
      else early[GuestKey(Guest(row.hostId, row.kind.value, row.vmid)) := OverrideOf(row.permissions, row.override)]
  }

  function IfAny(m: Overrides): Option<Overrides> {
    if m == map[] then None else Some(m)
  }

  /** `[...new Set(ids)]` of the hosts granted, without any of the hosts of the guests */
  function AllowedHosts(hosts: seq<string>, guestHosts: seq<string>): Option<seq<string>> {
    if hosts != [] then Some(Unique(hosts))
    else if guestHosts != [] then Some(Unique(guestHosts))
    else None
  }

  function SessionOf(hostAccess: seq<HostGrant>, guestAccess: seq<GuestGrant>): Session {
    var guests := GuestsOf(guestAccess);
    Session(
      AccessScope(AllowedHosts(HostIds(hostAccess), GuestHostIds(guests)), if guests != [] then Some(guests) else None),
      IfAny(WithHosts(HostOverrides(hostAccess), GuestHostIds(guests))),
      IfAny(GuestOverrides(guestAccess)))
  }

  method CollectHostOverrides(hostAccess: seq<HostGrant>, guestHosts: seq<string>) returns (m: Overrides)
    ensures m == WithHosts(HostOverrides(hostAccess), guestHosts)
  {
    m := map[];
    for n := 0 to |hostAccess|
      invariant m == HostOverrides(hostAccess[..n])
    {
      assert hostAccess[..n + 1][..n] == hostAccess[..n];
      m := m[hostAccess[n].hostId := OverrideOf(hostAccess[n].permissions, hostAccess[n].override)];
    }
    assert hostAccess[..|hostAccess|] == hostAccess;
    for n := 0 to |guestHosts|
      invariant m == WithHosts(HostOverrides(hostAccess), guestHosts[..n])
    {
      assert guestHosts[..n + 1][..n] == guestHosts[..n];
      if guestHosts[n] !in m {
        m := m[guestHosts[n] := None];
      }
    }
    assert guestHosts[..|guestHosts|] == guestHosts;
  }

  method CollectGuestOverrides(guestAccess: seq<GuestGrant>) returns (m: Overrides)
    ensures m == GuestOverrides(guestAccess)
  {
    m := map[];
    for n := 0 to |guestAccess|
      invariant m == GuestOverrides(guestAccess[..n])
    {
      assert guestAccess[..n + 1][..n] == guestAccess[..n];
      var row := guestAccess[n];
      if row.kind.None? {
        continue;
      }
      m := m[GuestKey(Guest(row.hostId, row.kind.value, row.vmid)) := OverrideOf(row.permissions, row.override)];
    }
    assert guestAccess[..|guestAccess|] == guestAccess;
  }

  method SessionScopeFromGrants(hostAccess: seq<HostGrant>, guestAccess: seq<GuestGrant>) returns (s: Session)
    ensures s == SessionOf(hostAccess, guestAccess)
  {
    var guests := GuestsOf(guestAccess);
    var guestHosts := GuestHostIds(guests);
    var hostPermissions := CollectHostOverrides(hostAccess, guestHosts);
    var guestPermissions := CollectGuestOverrides(guestAccess);
    s := Session(
      AccessScope(AllowedHosts(HostIds(hostAccess), guestHosts), if guests != [] then Some(guests) else None),
      IfAny(hostPermissions),
      IfAny(guestPermissions));
  }

  predicate Names(row: GuestGrant, g: Guest) {
    row.hostId == g.hostId && row.kind == Some(g.kind) && row.vmid == g.vmid
  }

  /** The last grant that names the guest. */
  function LastGrant(rows: seq<GuestGrant>, g: Guest): Option<GuestGrant> {
    if rows == [] then None
    else
      var row := rows[|rows| - 1];
      if Names(row, g) then Some(row) else LastGrant(rows[..|rows| - 1], g)
  }

  lemma {:induction false} LastGrantNames(rows: seq<GuestGrant>, g: Guest)
    ensures var last := LastGrant(rows, g); last.Some? ==> last.value in rows && Names(last.value, g)
    decreases |rows|
  {
    if rows != [] {
      LastGrantNames(rows[..|rows| - 1], g);
    }
  }

  function Lookup(m: Option<Overrides>, key: string): Option<seq<string>> {
    if m.Some? && key in m.value then m.value[key] else None
  }

  lemma {:induction false} OverrideIsLastGrant(rows: seq<GuestGrant>, g: Guest)
    ensures var m, last := GuestOverrides(rows), LastGrant(rows, g);
            if last.Some?
            then GuestKey(g) in m && m[GuestKey(g)] == OverrideOf(last.value.permissions, last.value.override)
            else GuestKey(g) !in m
    decreases |rows|
  {
    if rows != [] {
      var row := rows[|rows| - 1];
      OverrideIsLastGrant(rows[..|rows| - 1], g);
      if row.kind.Some? {
        var other := Guest(row.hostId, row.kind.value, row.vmid);
        if GuestKey(other) == GuestKey(g) {
          GuestKeyInjective(other, g);
        }
      }
    }
  }

  /** The permissions the last grant for the guest puts in place of the role's. */
  function Granted(rows: seq<GuestGrant>, g: Guest): Option<seq<string>> {
    var last := LastGrant(rows, g);
    if last.Some? then OverrideOf(last.value.permissions, last.value.override) else None
  }

  /** A session overrides the permissions on a guest exactly as the last grant for that very guest says. */
  lemma SessionOverride(hostAccess: seq<HostGrant>, guestAccess: seq<GuestGrant>, g: Guest)
    ensures Lookup(SessionOf(hostAccess, guestAccess).guestPermissions, GuestKey(g)) == Granted(guestAccess, g)
  {
    OverrideIsLastGrant(guestAccess, g);
  }

  ghost predicate SomeNames(rows: seq<GuestGrant>, g: Guest) {
    exists i :: 0 <= i < |rows| && Names(rows[i], g)
  }

  lemma SomeNamesSnoc(rows: seq<GuestGrant>, g: Guest)
    requires rows != []
    ensures SomeNames(rows, g) <==> SomeNames(rows[..|rows| - 1], g) || Names(rows[|rows| - 1], g)
  {
    var n := |rows| - 1;
    assert forall i :: 0 <= i < n ==> rows[..n][i] == rows[i];
    if SomeNames(rows[..n], g) {
      var i :| 0 <= i < n && Names(rows[..n][i], g);
      assert Names(rows[i], g);
    }
    if SomeNames(rows, g) && !Names(rows[n], g) {
      var i :| 0 <= i < |rows| && Names(rows[i], g);
      assert Names(rows[..n][i], g);
    }
  }

  lemma {:induction false} GuestsAreNamed(rows: seq<GuestGrant>, g: Guest)
    ensures g in GuestsOf(rows) <==> SomeNames(rows, g)
    decreases |rows|
  {
    if rows != [] {
      GuestsAreNamed(rows[..|rows| - 1], g);
      SomeNamesSnoc(rows, g);
    }
  }

  /**
    A user of a session reaches a guest when both lists let it through: the hosts are those of the host
    grants, without any those of the guest grants, and the guests those of the guest grants; a list
    without entries lets everything through.
  */
  lemma SessionReaches(hostAccess: seq<HostGrant>, guestAccess: seq<GuestGrant>, g: Guest)
    ensures var guests := GuestsOf(guestAccess);
            CanAccessGuest(SessionOf(hostAccess, guestAccess).scope, g) <==>
              && (hostAccess != [] ==> exists h :: h in hostAccess && h.hostId == g.hostId)
              && (guests != [] ==> SomeNames(guestAccess, g))
  {
    var guests := GuestsOf(guestAccess);
    GuestsAreNamed(guestAccess, g);
    assert hostAccess != [] ==> HostIds(hostAccess) != [];
    assert guests != [] ==> GuestHostIds(guests) != [];
    HostIdsAre(hostAccess, g.hostId);
    if g in guests {
      var i :| 0 <= i < |guests| && guests[i] == g;
      assert GuestHostIds(guests)[i] == g.hostId;
    }
  }

  lemma HostIdsAre(rows: seq<HostGrant>, id: string)
    ensures id in HostIds(rows) <==> exists h :: h in rows && h.hostId == id
  {
    if id in HostIds(rows) {
      var i :| 0 <= i < |rows| && HostIds(rows)[i] == id;
      assert rows[i] in rows;
    }
    if exists h :: h in rows && h.hostId == id {
      var h :| h in rows && h.hostId == id;
      var i :| 0 <= i < |rows| && rows[i] == h;
      assert HostIds(rows)[i] == id;
    }
  }
}
